/** The migration as it runs: files, rows and the version flag change one step
    at a time, and any step may fail or be the last before a crash. */
module MigrationRun {
  import opened Wrappers
  import opened Envelope
  import opened ImageFiles
  import opened Migration
  import opened MigrationView

  // ----------------------------------------------------------------- one row

  function SealAttribute(key: Key, value: Option<string>, nonce: Nonce): Option<string> {
    if value.Some? then Some(SealText(key, value.value, nonce)) else None
  }

  /** The row the update writes: `content` is the text or the picture's preview,
      `identity` the bytes its keyed hash is taken of. */
  function SealedClip(key: Key, clip: Clip, content: Bytes, identity: Bytes, nonces: nat -> Nonce): Clip {
    Clip(clip.image, Encrypt(key, content, nonces(0)), SealText(key, clip.preview, nonces(1)), key.mac(identity),
         seq(|clip.attributes|, k requires 0 <= k < |clip.attributes| =>
           SealAttribute(key, clip.attributes[k], nonces(2 + k))))
  }

  /** A field is sealed once, whether or not an earlier run had sealed it. */
  lemma {:induction false} TextIsSealedOnce(key: Key, stored: string, original: string, nonce: Nonce)
    requires Lawful(key) && TextKept(key, stored, original) && !IsEncryptedText(key, original)
    ensures DecryptText(key, SealText(key, stored, nonce)) == Some(original)
  {
    TextRoundTrip(key, original, nonce);
    hide DecryptText, EncryptText;
  }

  lemma {:induction false} FieldsAreSealedOnce(key: Key, clip: Clip, o: Original, content: Bytes, identity: Bytes,
                                               nonces: nat -> Nonce)
    requires Lawful(key) && FieldsKept(key, clip, o) && TextsInTheClear(key, o)
    ensures FieldsSealed(key, SealedClip(key, clip, content, identity, nonces), o)
  {
    hide DecryptText, EncryptText, Encrypt, Decrypt, SealText;
    TextIsSealedOnce(key, clip.preview, o.preview, nonces(1));
    forall k | 0 <= k < |o.attributes| && o.attributes[k].Some?
      ensures clip.attributes[k].Some?
      ensures DecryptText(key, SealText(key, clip.attributes[k].value, nonces(2 + k))) == o.attributes[k]
    {
      assert AttributeKept(key, clip.attributes[k], o.attributes[k]);
      TextIsSealedOnce(key, clip.attributes[k].value, o.attributes[k].value, nonces(2 + k));
    }
    forall k | 0 <= k < |o.attributes|
      ensures clip.attributes[k].Some? == o.attributes[k].Some?
    {
      assert AttributeKept(key, clip.attributes[k], o.attributes[k]);
    }
  }

  /** A kept text clip, or a kept picture with its file in place, ends sealed. */
  lemma {:induction false} UpdateSeals(key: Key, preview: Bytes -> Option<Bytes>, uuid: nat, clip: Clip,
                                       row: Option<ImageRow>, files: map<Path, Bytes>, o: Original, content: Bytes,
                                       nonces: nat -> Nonce)
    requires Lawful(key) && FieldsKept(key, clip, o) && TextsInTheClear(key, o)
    requires if o.image then preview(o.bytes) == Some(content) && row == Some(ImageRow(Some(Managed(uuid)), []))
                             && Managed(uuid) in files && Decrypt(key, files[Managed(uuid)]) == Some(o.bytes)
             else content == o.bytes
    ensures Sealed(key, preview, uuid, SealedClip(key, clip, content, o.bytes, nonces), row, files, o)
  {
    RoundTrip(key, content, nonces(0));
    FieldsAreSealedOnce(key, clip, o, content, o.bytes, nonces);
    hide DecryptText, Decrypt, Encrypt, SealText, FieldsSealed, FieldsKept;
  }

  class Storage {
    const key: Key
    const preview: Bytes -> Option<Bytes>
    /** The clips in the order their rows come. */
    const order: seq<nat>
    ghost const orig: map<nat, Original>

    var clips: map<nat, Clip>
    var images: map<nat, ImageRow>
    var files: map<Path, Bytes>
    var versionSet: bool
    /** What each clip holds now: its original, or a picture that replaced it. */
    ghost var now: map<nat, Original>
    ghost var done: set<nat>

    /** Before the first run: every original is in place, in the clear, and no
        staged file is left over from anything else. */
    constructor (key: Key, preview: Bytes -> Option<Bytes>, order: seq<nat>, clips: map<nat, Clip>,
                 images: map<nat, ImageRow>, files: map<Path, Bytes>, ghost orig: map<nat, Original>)
      requires Lawful(key) && AllKept(key, clips, images, files, orig) && OwnFiles(images) && NoTemps(files)
      requires forall u | u in orig :: InTheClear(key, orig[u])
      requires orig.Keys == (set u | u in order) && forall i, j | 0 <= i < j < |order| :: order[i] != order[j]
      ensures Valid() && this.orig == orig && now == orig && !versionSet && Replaced() == {}
    {
      PromotedIsPlain(images, files);
      UnreadFilesDoNotMatter(key, preview, clips, images, files, Promoted(files), orig, {});
      this.key, this.preview, this.order, this.orig := key, preview, order, orig;
      this.clips, this.images, this.files, versionSet, now, done := clips, images, files, false, orig, {};
    }

    /** What no run changes: a lawful key, and originals that are no envelopes. */
    ghost predicate Fixed() {
      && Lawful(key)
      && (forall u | u in orig :: InTheClear(key, orig[u]))
      && orig.Keys == (set u | u in order)
      && (forall i, j | 0 <= i < j < |order| :: order[i] != order[j])
    }

    ghost predicate Valid()
      reads this
    {
      && Fixed()
      && OnlyPicturesChange(orig, now)
      && OwnFiles(images)
      && AllKept(key, clips, images, Promoted(files), now)
      && AllSealed(key, preview, clips, images, Promoted(files), now, done)
      && (versionSet ==> done == orig.Keys && InPlace(now, files))
    }

    /** The clips that no longer have the picture they came with. */
    ghost function Replaced(): set<nat>
      reads this
    {
      set u | u in orig && u in now && now[u] != orig[u]
    }

    ghost function Here(): Snapshot
      reads this
    {
      Snapshot(clips, images, files, now)
    }

    // ------------------------------------------------------------ file steps

    /** Create the staging file, whole or cut short by a crash. Beside a present
        target nobody sees it; in place of a missing one it is what comes next. */
    method Stage(uuid: nat, bytes: Bytes)
      requires Valid() && !versionSet && uuid in orig && Temp(uuid) !in files
      modifies this`files, this`now
      ensures Valid() && files == old(files)[Temp(uuid) := bytes]
      ensures PictureBecomes(old(now), now, uuid, Opened(key, bytes))
      ensures !NamesLostFile(images, old(files), uuid) ==> now == old(now)
    {
      hide AllKept, AllSealed, Fixed, Promoted, OnlyPicturesChange, WithStored, OwnFiles, Opened, Decrypt, NamesManaged;
      var after := files[Temp(uuid) := bytes];
      if Managed(uuid) in files {
        StagingBesideIsUnseen(images, files, uuid, bytes);
        UnreadFilesDoNotMatter(key, preview, clips, images, Promoted(files), Promoted(after), now, done);
      } else {
        DoneIsStored(uuid);
        PromotedAt(after, Managed(uuid));
        assert SameElsewhere(files, after, uuid);
        Stands(after, uuid, bytes);
        WithStoredAt(key, now, images, files, uuid, bytes);
        now := WithStored(key, now, images, uuid, bytes);
      }
      files := after;
    }

    /** `stored` comes to stand under the managed name, in the view. */
    lemma {:induction false} Stands(after: map<Path, Bytes>, uuid: nat, stored: Bytes)
      requires Valid() && uuid in orig && SameElsewhere(files, after, uuid)
      requires Managed(uuid) in Promoted(after) && Promoted(after)[Managed(uuid)] == stored
      requires uuid in done && now[uuid].image ==> Decrypt(key, stored) == Some(now[uuid].bytes)
      ensures var later := WithStored(key, now, images, uuid, stored);
              && AllKept(key, clips, images, Promoted(after), later) && OnlyPicturesChange(orig, later)
              && AllSealed(key, preview, clips, images, Promoted(after), later, done)
    {
      hide AllKept, AllSealed, Fixed, Promoted, OwnFiles, Decrypt, SameElsewhere;
      OthersSeeTheSame(images, files, after, uuid);
      StoredFileIsKept(key, preview, clips, images, Promoted(files), Promoted(after), uuid, stored, now, done);
    }

    /** The staging file goes, its target being there. */
    method Unstage(uuid: nat)
      requires Valid() && Managed(uuid) in files
      modifies this`files
      ensures Valid() && files == old(files) - {Temp(uuid)}
    {
      hide AllKept, AllSealed, Fixed, Promoted, OnlyPicturesChange, OwnFiles;
      StagingBesideIsUnseen(images, files, uuid, []);
      UnreadFilesDoNotMatter(key, preview, clips, images, Promoted(files), Promoted(files - {Temp(uuid)}), now, done);
      files := files - {Temp(uuid)};
    }

    /** The staged file takes the managed name, in one step or, on file systems
        that delete first, leaving the name empty in between. */
    method Replace(uuid: nat, moved: bool)
      requires Valid() && !versionSet && uuid in orig && Temp(uuid) in files
      requires uuid in done && now[uuid].image ==> Decrypt(key, files[Temp(uuid)]) == Some(now[uuid].bytes)
      modifies this`files, this`now
      ensures Valid()
      ensures files == if moved then (old(files) - {Temp(uuid)})[Managed(uuid) := old(files)[Temp(uuid)]]
                       else old(files) - {Managed(uuid)}
      ensures PictureBecomes(old(now), now, uuid, Opened(key, old(files)[Temp(uuid)]))
    {
      hide AllKept, AllSealed, Fixed, Promoted, OnlyPicturesChange, WithStored, OwnFiles, Decrypt, Opened, NamesManaged;
      var staged := files[Temp(uuid)];
      var after := if moved then (files - {Temp(uuid)})[Managed(uuid) := staged] else files - {Managed(uuid)};
      PromotedAt(after, Managed(uuid));
      assert SameElsewhere(files, after, uuid);
      Stands(after, uuid, staged);
      WithStoredAt(key, now, images, files, uuid, staged);
      files := after;
      now := WithStored(key, now, images, uuid, staged);
    }

    /** A finished picture is in the view under its managed name. */
    lemma {:induction false} DoneIsStored(uuid: nat)
      requires Valid()
      ensures uuid in done && now[uuid].image ==> Managed(uuid) in files || Temp(uuid) in files
    {
      hide AllKept, Fixed, OnlyPicturesChange, OwnFiles, Promoted;
      if uuid in done && now[uuid].image {
        assert Sealed(key, preview, uuid, clips[uuid], RowOf(images, uuid), Promoted(files), now[uuid]);
        PromotedAt(files, Managed(uuid));
      }
    }

    /** Encrypt and stage a full picture, then move it onto its managed name. An
        existing staging file is never overwritten. A crash in the middle of the
        staging leaves part of a file, which is this clip's picture from then on
        if its row names a managed file that is missing. */
    method PersistFullImageFile(uuid: nat, picture: Bytes, nonce: Nonce, calm: bool) returns (ok: bool)
      requires Valid() && !versionSet && uuid in orig
      requires Temp(uuid) !in files && uuid in done && now[uuid].image ==> picture == now[uuid].bytes
      modifies this`files, this`now
      ensures Valid() && SameElsewhere(old(files), files, uuid) && OthersAreTheSame(old(now), now, uuid)
      ensures ok ==> Managed(uuid) in files && Temp(uuid) !in files
                     && Decrypt(key, files[Managed(uuid)]) == Some(picture)
      ensures ok || !NamesLostFile(images, old(files), uuid) ==> PictureBecomes(old(now), now, uuid, picture)
      ensures Managed(uuid) in old(files) || Temp(uuid) in old(files) ==> Managed(uuid) in files || Temp(uuid) in files
      ensures Temp(uuid) in old(files) ==> !ok && files == old(files) && now == old(now)
      ensures calm && Temp(uuid) !in old(files) ==> ok
    {
      hide AllKept, AllSealed, Fixed, Lawful, OnlyPicturesChange, OwnFiles, Decrypt, Encrypt, Promoted, NamesManaged;
      if Temp(uuid) in files {
        return false;
      }
      var sealed := Encrypt(key, picture, nonce);
      assert Decrypt(key, sealed) == Some(picture) by {
        KeyAndClips();
        RoundTrip(key, picture, nonce);
      }
      var wrote: bool, cleaned: bool, part: Bytes := *, *, *;
      if !wrote && !calm {
        // A failed write is cleaned up; a crash in the middle of it is not.
        if !cleaned {
          Stage(uuid, part);
        }
        return false;
      }
      KeyAndClips();
      Stage(uuid, sealed);
      ok := Commit(uuid, picture, calm);
    }

    lemma {:induction false} KeyAndClips()
      requires Valid()
      ensures Lawful(key) && now.Keys == orig.Keys
    {
      hide AllKept, AllSealed, OwnFiles, Promoted, Lawful;
    }

    /** The staged file replaces its target, or stops before or while it does. */
    method Commit(uuid: nat, picture: Bytes, calm: bool) returns (ok: bool)
      requires Valid() && !versionSet && uuid in orig && Temp(uuid) in files
      requires Decrypt(key, files[Temp(uuid)]) == Some(picture)
      requires uuid in done && now[uuid].image ==> picture == now[uuid].bytes
      modifies this`files, this`now
      ensures Valid() && SameElsewhere(old(files), files, uuid) && (calm ==> ok)
      ensures ok ==> Managed(uuid) in files && Temp(uuid) !in files
                     && Decrypt(key, files[Managed(uuid)]) == Some(picture)
      ensures Managed(uuid) in files || Temp(uuid) in files
      ensures PictureBecomes(old(now), now, uuid, picture)
    {
      hide AllKept, AllSealed, Fixed, OnlyPicturesChange, OwnFiles, Decrypt, Promoted;
      KeyAndClips();
      var moved: bool, stops: bool, deleted: bool := *, *, *;
      if moved || calm {
        Replace(uuid, true);
        return true;
      }
      if stops {
        return false;
      }
      if deleted {
        Replace(uuid, false);
      }
      ok := RecoverOrDiscard(uuid, picture);
    }

    /** The replace failed. If the target is gone a rename is tried, and the
        staged file stays if that fails too; if it is there the staged file goes. */
    method RecoverOrDiscard(uuid: nat, picture: Bytes) returns (ok: bool)
      requires Valid() && !versionSet && uuid in orig && Temp(uuid) in files
      requires Decrypt(key, files[Temp(uuid)]) == Some(picture)
      requires uuid in done && now[uuid].image ==> picture == now[uuid].bytes
      modifies this`files, this`now
      ensures Valid() && SameElsewhere(old(files), files, uuid)
      ensures ok ==> Managed(uuid) in files && Temp(uuid) !in files
                     && Decrypt(key, files[Managed(uuid)]) == Some(picture)
      ensures Managed(uuid) in files || Temp(uuid) in files
      ensures PictureBecomes(old(now), now, uuid, picture)
    {
      hide AllKept, AllSealed, Fixed, OnlyPicturesChange, OwnFiles, Decrypt, Promoted;
      var works: bool := *;
      ok := works && Managed(uuid) !in files;
      if ok {
        Replace(uuid, true);
      } else if works {
        Unstage(uuid);
      }
    }

    /** Startup's sweep: a staged file whose target is missing takes its place,
        any other is removed, and either may fail. Nobody sees a difference. */
    method SweepStaleImageTemp(uuid: nat, calm: bool)
      requires Valid()
      modifies this`files
      ensures Valid()
      ensures calm ==> Temp(uuid) !in files
      ensures calm && Temp(uuid) in old(files) ==> files == Swept(old(files), uuid)
      ensures files == old(files) || (Temp(uuid) in old(files) && files == Swept(old(files), uuid))
    {
      hide AllKept, AllSealed, Fixed, Promoted, OnlyPicturesChange, OwnFiles;
      var fails: bool := *;
      if Temp(uuid) !in files || (fails && !calm) {
        return;
      }
      if Managed(uuid) in files {
        Unstage(uuid);
        return;
      }
      var after := Swept(files, uuid);
      PromotionIsUnseen(images, files, uuid);
      UnreadFilesDoNotMatter(key, preview, clips, images, Promoted(files), Promoted(after), now, done);
      files := after;
    }

    /** The sweep over the whole directory leaves every clip what it had. */
    method SweepStaleImageTemps(calm: bool)
      requires Valid()
      modifies this`files
      ensures Valid() && (calm ==> NoTemps(files))
      ensures forall q: Path | q.Legacy? :: q in files <==> q in old(files)
      ensures forall u | u in now :: NoNewRisk(key, u, old(Here()), Here())
    {
      hide AllKept, AllSealed, Fixed, Promoted, OnlyPicturesChange, OwnFiles;
      var found := set p | p in files && p.Temp? :: p.uuid;
      while found != {}
        invariant Valid()
        invariant calm ==> forall u :: Temp(u) in files ==> u in found
        invariant forall q: Path | q.Legacy? :: q in files <==> q in old(files)
        invariant forall u :: Managed(u) in old(files) || Temp(u) in old(files) ==> Managed(u) in files || Temp(u) in files
        decreases |found|
      {
        var uuid :| uuid in found;
        found := found - {uuid};
        SweepStaleImageTemp(uuid, calm);
      }
      forall u | u in now
        ensures NoNewRisk(key, u, old(Here()), Here())
      {
        NoRiskWithoutChange(key, u, old(Here()), Here());
      }
    }

    // ------------------------------------------------------------- one clip

    lemma {:induction false} ClipIsKept(uuid: nat)
      requires Valid() && uuid in orig
      ensures uuid in now && uuid in clips && Kept(key, clips[uuid], RowOf(images, uuid), Promoted(files), now[uuid])
      ensures FieldsKept(key, clips[uuid], now[uuid]) && clips[uuid].image == now[uuid].image == orig[uuid].image
      ensures InTheClear(key, orig[uuid]) && TextsInTheClear(key, now[uuid]) && Lawful(key)
      ensures !now[uuid].image ==> Opened(key, clips[uuid].content) == now[uuid].bytes
    {
      hide AllSealed, Promoted, OwnFiles, Decrypt, Lawful, ImageBytes, Opened, TextKept, AttributeKept, IsEncryptedText;
      assert Kept(key, clips[uuid], RowOf(images, uuid), Promoted(files), now[uuid]);
    }

    /** The rows may change to `content` and the hash of `identity`: the text is
        that text, the picture lies under its managed name. */
    ghost predicate ReadyToSeal(uuid: nat, content: Bytes, identity: Bytes)
      requires uuid in now
      reads this
    {
      if now[uuid].image then
        preview(identity) == Some(content) && Managed(uuid) in files && Decrypt(key, files[Managed(uuid)]) == Some(identity)
      else content == now[uuid].bytes == identity
    }

    /** The transaction that replaces a clip's row and its picture's row. The
        hash is taken of the text or of the full picture. */
    method CommitRows(uuid: nat, content: Bytes, identity: Bytes, nonces: nat -> Nonce)
      requires Valid() && uuid in orig && !versionSet && uuid in now && ReadyToSeal(uuid, content, identity)
      modifies this`clips, this`images, this`now, this`done
      ensures Valid() && done == old(done) + {uuid}
      ensures images == ImagesAfter(old(images), uuid, old(now)[uuid].image)
      ensures now == old(now)[uuid := old(now)[uuid].(bytes := identity)]
      ensures old(clips) - {uuid} == clips - {uuid}
    {
      hide AllKept, AllSealed, Fixed, OnlyPicturesChange, Decrypt, SealedClip, OwnFiles, ReadyToSeal, Promoted;
      ClipIsKept(uuid);
      SealedRowsAreSafe(uuid, content, identity, nonces);
      images := ImagesAfter(images, uuid, clips[uuid].image);
      clips := clips[uuid := SealedClip(key, clips[uuid], content, identity, nonces)];
      now, done := now[uuid := now[uuid].(bytes := identity)], done + {uuid};
    }

    lemma {:induction false} SealedRowsAreSafe(uuid: nat, content: Bytes, identity: Bytes, nonces: nat -> Nonce)
      requires Valid() && uuid in orig && uuid in now && ReadyToSeal(uuid, content, identity)
      ensures uuid in clips
      ensures var sealed := SealedClip(key, clips[uuid], content, identity, nonces);
              var after := ImagesAfter(images, uuid, now[uuid].image);
              var later := now[uuid := now[uuid].(bytes := identity)];
              && AllKept(key, clips[uuid := sealed], after, Promoted(files), later)
              && AllSealed(key, preview, clips[uuid := sealed], after, Promoted(files), later, done + {uuid})
              && OnlyPicturesChange(orig, later) && OwnFiles(after)
    {
      SealsThis(uuid, content, identity, nonces);
      hide AllKept, AllSealed, Fixed, Decrypt, SealedClip, Sealed, OwnFiles, Promoted, ReadyToSeal, OnlyPicturesChange,
           ImagesAfter;
      ghost var sealed := SealedClip(key, clips[uuid], content, identity, nonces);
      SealedRowIsSafe(key, preview, clips, images, Promoted(files), uuid, sealed, now,
                      now[uuid].(bytes := identity), done);
      OwnAfter(images, uuid, now[uuid].image);
      BytesMayChange(uuid, content, identity);
    }

    lemma {:induction false} BytesMayChange(uuid: nat, content: Bytes, identity: Bytes)
      requires Valid() && uuid in orig && uuid in now && ReadyToSeal(uuid, content, identity)
      ensures OnlyPicturesChange(orig, now[uuid := now[uuid].(bytes := identity)])
    {
      hide AllKept, AllSealed, Fixed, Decrypt, OwnFiles, Promoted;
      if now[uuid].image {
        PictureChanges(orig, now, uuid, identity);
      } else {
        assert now[uuid].(bytes := identity) == now[uuid];
      }
    }

    lemma {:induction false} SealsThis(uuid: nat, content: Bytes, identity: Bytes, nonces: nat -> Nonce)
      requires Valid() && uuid in orig && uuid in now && ReadyToSeal(uuid, content, identity)
      ensures uuid in clips
      ensures Sealed(key, preview, uuid, SealedClip(key, clips[uuid], content, identity, nonces),
                     RowOf(ImagesAfter(images, uuid, now[uuid].image), uuid), Promoted(files),
                     now[uuid].(bytes := identity))
    {
      ClipIsKept(uuid);
      PromotedAt(files, Managed(uuid));
      hide AllKept, AllSealed, Fixed, Lawful, InTheClear, Decrypt, SealedClip, FieldsKept, Sealed, OwnFiles, Promoted,
           TextsInTheClear, Kept, OnlyPicturesChange;
      ghost var o := now[uuid].(bytes := identity);
      SameFields(key, clips[uuid], now[uuid], identity);
      UpdateSeals(key, preview, uuid, clips[uuid], RowOf(ImagesAfter(images, uuid, o.image), uuid), Promoted(files), o,
                  content, nonces);
    }

    /** What the migration reads is the picture unless it is misread, and what
        it reads of a finished clip is always the picture. */
    lemma {:induction false} ImageRead(uuid: nat, readFails: bool)
      requires Valid() && uuid in orig && orig[uuid].image && Temp(uuid) !in files
      ensures uuid in clips && uuid in now
      ensures var got := ImageBytes(key, clips[uuid], RowOf(images, uuid), files, readFails);
              && (!readFails ==> got.Some?)
              && (got.Some? ==> (got.value.0 == now[uuid].bytes <==> !(readFails && MisreadIfUnreadable(key, Here(), uuid))))
              && (readFails && MisreadIfUnreadable(key, Here(), uuid) ==> got.Some?)
              && (got.Some? && uuid in done ==> got.value.0 == now[uuid].bytes)
              && (got.Some? && got.value.1.Some? ==> uuid in images && images[uuid].path == got.value.1)
              && (!readFails && uuid in images && images[uuid].path.Some? && images[uuid].path.value in files ==>
                    got.Some? && got.value.1 == images[uuid].path)
    {
      ClipIsKept(uuid);
      if uuid in done {
        assert Sealed(key, preview, uuid, clips[uuid], RowOf(images, uuid), Promoted(files), now[uuid]);
      }
      if uuid in images && images[uuid].path.Some? {
        PromotedAt(files, images[uuid].path.value);
      }
      hide AllKept, AllSealed, Fixed, OnlyPicturesChange, Promoted, Decrypt, Opened, FieldsKept, FieldsSealed;
    }

    /** The file a migrated picture used to have, when it has moved. */
    method RemoveOldImage(uuid: nat, path: Path, calm: bool)
      requires Valid() && !versionSet && uuid in images && images[uuid].path == Some(Managed(uuid)) && path.Legacy?
      requires forall u | u in images && u != uuid :: images[u].path != Some(path)
      modifies this`files
      ensures Valid() && (files == old(files) || files == old(files) - {path})
      ensures calm ==> path !in files
    {
      hide AllKept, AllSealed, Fixed, Promoted, OnlyPicturesChange;
      var fails: bool := *;
      if fails && !calm {
        return;
      }
      RemovalIsUnseen(images, files, path);
      UnreadFilesDoNotMatter(key, preview, clips, images, Promoted(files), Promoted(files - {path}), now, done);
      files := files - {path};
    }

    lemma {:induction false} OldPathIsItsOwn(uuid: nat, path: Path)
      requires OwnFiles(images) && uuid in images && images[uuid].path == Some(path) && path != Managed(uuid)
      ensures path.Legacy? && forall u | u in images && u != uuid :: images[u].path != Some(path)
    {
    }

    /** The rows change, and then the old file goes if it was another one. */
    method ReplaceRows(uuid: nat, thumbnail: Bytes, picture: Bytes, oldPath: Option<Path>, nonces: nat -> Nonce,
                       calm: bool)
      requires Valid() && !versionSet && uuid in orig && uuid in now && now[uuid].image
      requires ReadyToSeal(uuid, thumbnail, picture)
      requires oldPath.Some? ==> uuid in images && images[uuid].path == oldPath
      modifies this
      ensures Valid() && !versionSet && done == old(done) + {uuid}
      ensures now == old(now)[uuid := old(now)[uuid].(bytes := picture)]
      ensures images == ImagesAfter(old(images), uuid, true)
      ensures old(clips) - {uuid} == clips - {uuid} && old(images) - {uuid} == images - {uuid}
      ensures files == old(files) || (oldPath.Some? && oldPath.value.Legacy? && files == old(files) - {oldPath.value})
      ensures calm && oldPath.Some? && oldPath.value.Legacy? ==> oldPath.value !in files
    {
      hide AllKept, AllSealed, Fixed, OnlyPicturesChange, OwnFiles, ReadyToSeal, Promoted;
      if oldPath.Some? && oldPath.value != Managed(uuid) {
        OldPathIsItsOwn(uuid, oldPath.value);
      }
      CommitRows(uuid, thumbnail, picture, nonces);
      if oldPath.Some? && oldPath.value != Managed(uuid) {
        RemoveOldImage(uuid, oldPath.value, calm);
      }
    }

    /** The file a picture had under another name does not stay behind. */
    ghost predicate OldFileIsGone(rows: map<nat, ImageRow>, before: map<Path, Bytes>, uuid: nat)
      reads this
    {
      uuid in rows && rows[uuid].path.Some? && rows[uuid].path.value.Legacy? && rows[uuid].path.value in before ==>
        rows[uuid].path.value !in files
    }

    /** One picture, from reading it to removing its old file; `ok` is false when
        it stopped anywhere short of the row update. It is the same picture
        afterwards exactly when it was not misread. When it stopped it may have
        changed for one more reason: a part of it was staged while its row named
        a lost file. */
    method MigratePicture(uuid: nat, readFails: bool, nonces: nat -> Nonce, calm: bool) returns (ok: bool)
      requires Valid() && !versionSet && uuid in orig && orig[uuid].image
      modifies this
      ensures Valid() && !versionSet && done == (if ok then old(done) + {uuid} else old(done))
      ensures LeavesOthers(uuid, old(Here()), Here()) && NoNewRisk(key, uuid, old(Here()), Here())
      ensures ok ==> Managed(uuid) in files && Temp(uuid) !in files
      ensures ok ==> (now[uuid] == old(now)[uuid] <==> !(readFails && MisreadIfUnreadable(key, old(Here()), uuid)))
      ensures now[uuid] == old(now)[uuid] || (readFails && MisreadIfUnreadable(key, old(Here()), uuid))
              || (!ok && NamesLostFile(old(images), old(files), uuid))
      ensures calm && Temp(uuid) !in old(files) && !readFails ==>
                Temp(uuid) !in files && now[uuid] == old(now)[uuid] && (ok || preview(now[uuid].bytes).None?)
      ensures calm && ok && !readFails ==> OldFileIsGone(old(images), old(files), uuid)
    {
      hide AllKept, AllSealed, Fixed, OnlyPicturesChange, FieldsKept, OwnFiles, Decrypt, ImageBytes, Promoted,
           LeavesOthers, HasOtherCopy, SameElsewhere, InTheClear, TextsInTheClear, Lawful, NoNewRisk;
      ClipIsKept(uuid);
      if Temp(uuid) !in files {
        ImageRead(uuid, readFails);
      }
      OwnStepLeavesOthers(uuid, Here(), Here(), files);
      NoRiskWithoutChange(key, uuid, Here(), Here());
      var got := ImageBytes(key, clips[uuid], RowOf(images, uuid), files, readFails);
      if got.None? {
        return false;
      }
      var (picture, oldPath) := got.value;
      var thumbnail := preview(picture);
      if thumbnail.None? {
        return false;
      }
      ok := PersistFullImageFile(uuid, picture, nonces(0), calm);
      ghost var mid := files;
      OwnStepLeavesOthers(uuid, old(Here()), Here(), mid);
      NoRiskWithoutChange(key, uuid, old(Here()), Here());
      var stops: bool := *;
      if !ok || (stops && !calm) {
        return false;
      }
      ReplaceRows(uuid, thumbnail.value, picture, oldPath, nonces, calm);
      OwnStepLeavesOthers(uuid, old(Here()), Here(), mid);
      FinishedIsSafe(uuid);
      SafeIsNoRisk(key, uuid, old(Here()), Here());
    }

    /** A finished clip has no other copy left. */
    lemma {:induction false} FinishedIsSafe(uuid: nat)
      requires Valid() && uuid in done && now[uuid].image
      ensures !HasOtherCopy(key, Here(), uuid)
    {
      hide AllKept, Fixed, OwnFiles, Promoted, FieldsSealed, Decrypt;
      assert Sealed(key, preview, uuid, clips[uuid], RowOf(images, uuid), Promoted(files), now[uuid]);
    }

    /** One clip; see MigratePicture. A text clip only changes its row. */
    method MigrateClip(uuid: nat, readFails: bool, nonces: nat -> Nonce, calm: bool) returns (ok: bool)
      requires Valid() && !versionSet && uuid in orig
      modifies this
      ensures Valid() && !versionSet && done == (if ok then old(done) + {uuid} else old(done))
      ensures LeavesOthers(uuid, old(Here()), Here())
      ensures ok ==> Passed(key, uuid, readFails, done, old(Here()), Here())
      ensures ChangeIsExplained(key, uuid, readFails, old(Here()), Here())
      ensures calm && Temp(uuid) !in old(files) && !readFails ==>
                Temp(uuid) !in files && now[uuid] == old(now)[uuid]
                && (ok || (now[uuid].image && preview(now[uuid].bytes).None?))
      ensures calm && ok && !readFails && orig[uuid].image ==> OldFileIsGone(old(images), old(files), uuid)
    {
      hide AllKept, AllSealed, Fixed, OnlyPicturesChange, FieldsKept, OwnFiles, Decrypt, ImageBytes, Promoted,
           LeavesOthers, SameElsewhere, InTheClear, TextsInTheClear, Lawful, Kept;
      ClipIsKept(uuid);
      if clips[uuid].image {
        ok := MigratePicture(uuid, readFails, nonces, calm);
        ClipIsKept(uuid);
        return;
      }
      var stops: bool := *;
      ok := calm || !stops;
      if ok {
        var plaintext := Opened(key, clips[uuid].content);
        CommitRows(uuid, plaintext, plaintext, nonces);
        ClipIsKept(uuid);
      }
      OwnStepLeavesOthers(uuid, old(Here()), Here(), files);
    }

    lemma {:induction false} InOrder()
      requires Valid()
      ensures now.Keys == orig.Keys && forall u :: u in order <==> u in orig
      ensures forall k, l | 0 <= k < l < |order| :: order[k] != order[l]
    {
      hide AllKept, AllSealed, Lawful, InTheClear, OwnFiles, Promoted;
    }

    method MigrateNext(i: nat, fails: set<nat>, nonces: nat -> Nonce, ghost start: Snapshot, calm: bool)
      returns (ok: bool)
      requires Valid() && !versionSet && i < |order| && (calm ==> fails == {})
      requires Progress(key, order, fails, i, done, start, Here())
      requires calm && NoTemps(start.files) ==> NoTemps(files)
      modifies this
      ensures Valid() && !versionSet && old(done) <= done
      ensures ok ==> Progress(key, order, fails, i + 1, done, start, Here())
      ensures !ok ==> forall u | u in order :: ChangeIsExplained(key, u, u in fails, start, Here())
      ensures calm && NoTemps(start.files) ==> NoTemps(files) && (ok || !AllPreviewable(preview, now))
      ensures calm && NoTemps(start.files) ==> forall u | u in order :: u in start.now && u in now && now[u] == start.now[u]
    {
      hide Valid, Progress, LeavesOthers, Passed, ChangeIsExplained;
      ghost var mid := Here();
      ghost var doneBefore := done;
      ghost var u := order[i];
      NextIsUntouched(key, order, fails, i, done, start, mid);
      InOrder();
      ok := MigrateClip(order[i], order[i] in fails, nonces, calm);
      InOrder();
      if ok {
        ProgressStep(key, order, fails, i, doneBefore, start, mid, Here());
      } else {
        StopIsExplained(key, order, fails, i, doneBefore, start, mid, Here());
      }
      if calm && NoTemps(start.files) {
        StaysWithoutTemps(u, mid, Here());
        CalmChangesNothing(key, order, i, doneBefore, start, mid, Here());
      }
    }

    /** The loop over the clips, which ends early at the first failure. */
    method MigrateClips(fails: set<nat>, nonces: (nat, nat) -> Nonce, calm: bool) returns (ok: bool)
      requires Valid() && !versionSet && (calm ==> fails == {})
      modifies this
      ensures Valid() && !versionSet && old(done) <= done
      ensures forall u | u in order :: ChangeIsExplained(key, u, u in fails, old(Here()), Here())
      ensures ok ==> forall u | u in order :: Passed(key, u, u in fails, done, old(Here()), Here())
      ensures calm && NoTemps(old(files)) ==> forall u | u in order :: u in old(now) && u in now && now[u] == old(now)[u]
      ensures calm && NoTemps(old(files)) ==> ok || !AllPreviewable(preview, now)
    {
      hide Valid, Progress, LeavesOthers, Passed, ChangeIsExplained;
      ghost var start := Here();
      InOrder();
      ProgressStart(key, order, fails, done, start);
      for i := 0 to |order|
        invariant Valid() && !versionSet && old(done) <= done
        invariant Progress(key, order, fails, i, done, start, Here())
        invariant calm && NoTemps(start.files) ==> NoTemps(files)
        invariant calm && NoTemps(start.files) ==>
                    forall u | u in order :: u in start.now && u in now && now[u] == start.now[u]
      {
        ok := MigrateNext(i, fails, n => nonces(i, n), start, calm);
        if !ok {
          return;
        }
      }
      ProgressEnd(key, order, fails, done, start, Here());
      ok := true;
    }

    /** One start's migration; `fails` are the clips whose files cannot be read
        meanwhile. It sets the version flag only after every clip has been
        through. However far it came, a clip's original changes only as
        `ChangeIsExplained` says; when it got through, exactly the misread clips
        have changed. With nothing failing nothing changes, and it gets through
        unless some picture cannot be decoded. */
    method MigrateEncryptedStorage(fails: set<nat>, nonces: (nat, nat) -> Nonce, calm: bool) returns (ok: bool)
      requires Valid() && (calm ==> fails == {})
      modifies this
      ensures Valid() && now.Keys == orig.Keys == old(now).Keys && old(done) <= done && (ok ==> versionSet)
      ensures old(versionSet) ==> ok && Here() == old(Here())
      ensures forall u | u in orig :: ChangeIsExplained(key, u, u in fails, old(Here()), Here())
      ensures ok && !old(versionSet) ==>
                forall u | u in orig ::
                  now[u] == old(now)[u] <==> !(u in fails && MisreadIfUnreadable(key, old(Here()), u))
      ensures calm && NoTemps(old(files)) ==> now == old(now) && (ok || !AllPreviewable(preview, now))
    {
      hide Valid, HasOtherCopy, NamesLostFile, NoTemps, AllPreviewable;
      InOrder();
      if versionSet {
        return true;
      }
      ok := MigrateClips(fails, nonces, calm);
      InOrder();
      var stops: bool := *;
      if !ok || (stops && !calm) {
        return false;
      }
      SetVersion();
    }

    method SetVersion()
      requires Valid() && forall u | u in order :: u in now && u in done && (now[u].image ==> Managed(u) in files)
      modifies this`versionSet
      ensures Valid() && versionSet
    {
      hide AllKept, OwnFiles, Sealed, Promoted;
      versionSet := true;
    }

    /** The clips that have lost their picture are exactly the replaced ones. */
    lemma {:induction false} KeptUnlessReplaced(u: nat)
      requires Valid() && u in orig
      ensures u in clips
      ensures Kept(key, clips[u], RowOf(images, u), Promoted(files), orig[u]) <==> u !in Replaced()
    {
      ClipIsKept(u);
      hide AllKept, AllSealed, Fixed, OwnFiles, Promoted, FieldsKept, Decrypt, Opened, ImageBytes;
      SameFields(key, clips[u], now[u], orig[u].bytes);
      SameFields(key, clips[u], orig[u], now[u].bytes);
    }

    /** Once the flag is set, what each clip holds is under one envelope, and the
        picture really is under its managed name. */
    lemma {:induction false} SealedInPlace(u: nat)
      requires Valid() && versionSet && u in orig
      ensures u in clips && u in now
      ensures Sealed(key, preview, u, clips[u], RowOf(images, u), files, now[u])
    {
      hide AllKept, Fixed, OwnFiles, Promoted, FieldsSealed, Decrypt;
      assert Sealed(key, preview, u, clips[u], RowOf(images, u), Promoted(files), now[u]);
      PromotedAt(files, Managed(u));
    }

    /** One start of the program: the sweep, and then the migration. A clip that
        was in no danger at first, and has been spared so far, is spared. */
    method Start(ghost init: Snapshot, fails: set<nat>, nonces: (nat, nat) -> Nonce, calm: bool) returns (ok: bool)
      requires Valid() && (calm ==> fails == {})
      modifies this
      ensures Valid() && (ok ==> versionSet)
      ensures calm ==> now == old(now) && (ok || !AllPreviewable(preview, now))
      ensures forall u | SparedBy(key, init, u, fails) && Unharmed(key, init, old(Here()), u) :: Unharmed(key, init, Here(), u)
    {
      hide Valid, AllPreviewable, NoNewRisk, ChangeIsExplained, SparedBy, Unharmed;
      ghost var mid := Here();
      SweepStaleImageTemps(calm);
      ghost var swept := Here();
      ok := MigrateEncryptedStorage(fails, nonces, calm);
      InOrder();
      forall u | SparedBy(key, init, u, fails) && Unharmed(key, init, mid, u)
        ensures Unharmed(key, init, Here(), u)
      {
        UnharmedIsSame(key, init, mid, u);
        StaysUnharmed(key, init, mid, swept, Here(), u, fails);
      }
    }
  }

  /** A start in which these files cannot be read may not cost this clip its
      picture: its row names no lost file, and it has no other copy or its file
      can be read. */
  predicate SparedBy(key: Key, s: Snapshot, u: nat, fails: set<nat>) {
    u in s.now && !NamesLostFile(s.rows, s.files, u) && (u in fails ==> !HasOtherCopy(key, s, u))
  }

  predicate SparedByAll(key: Key, s: Snapshot, u: nat, starts: seq<set<nat>>) {
    !NamesLostFile(s.rows, s.files, u) && forall i | 0 <= i < |starts| :: SparedBy(key, s, u, starts[i])
  }

  lemma {:induction false} SparedByNext(key: Key, s: Snapshot, u: nat, starts: seq<set<nat>>, fails: set<nat>)
    requires u in s.now
    ensures SparedByAll(key, s, u, starts + [fails]) <==> SparedByAll(key, s, u, starts) && SparedBy(key, s, u, fails)
    ensures SparedByAll(key, s, u, starts) ==> SparedBy(key, s, u, {})
  {
    hide HasOtherCopy;
    assert (starts + [fails])[|starts|] == fails;
    assert forall i | 0 <= i < |starts| :: (starts + [fails])[i] == starts[i];
  }

  predicate Unharmed(key: Key, init: Snapshot, here: Snapshot, u: nat) {
    NoNewRisk(key, u, init, here) && here.now[u] == init.now[u]
  }

  lemma {:induction false} UnharmedAtFirst(key: Key, init: Snapshot)
    ensures forall u | u in init.now :: Unharmed(key, init, init, u)
  {
  }

  lemma {:induction false} UnharmedIsSame(key: Key, init: Snapshot, here: Snapshot, u: nat)
    requires Unharmed(key, init, here, u)
    ensures u in init.now && u in here.now && here.now[u] == init.now[u]
  {
  }

  lemma {:induction false} StaysUnharmed(key: Key, init: Snapshot, mid: Snapshot, swept: Snapshot, here: Snapshot,
                                         u: nat, fails: set<nat>)
    requires SparedBy(key, init, u, fails) && Unharmed(key, init, mid, u)
    requires NoNewRisk(key, u, mid, swept) && mid.now == swept.now
    requires ChangeIsExplained(key, u, u in fails, swept, here)
    ensures Unharmed(key, init, here, u)
  {
    hide HasOtherCopy, NamesLostFile;
  }

  /** Starts in which anything may fail, stop or be unreadable, and then one in
      which nothing does. That one gets through unless a picture cannot be
      decoded, and changes nothing; the clips none of the starts could harm hold
      what they held; and once the flag is set every clip that has its original
      has it under one envelope. */
  method StartRepeatedly(storage: Storage, starts: seq<set<nat>>, nonces: (nat, nat, nat) -> Nonce) returns (ok: bool)
    requires storage.Valid()
    modifies storage
    ensures storage.Valid() && (ok ==> storage.versionSet)
    ensures ok || !AllPreviewable(storage.preview, storage.now)
    ensures forall u | u in old(storage.now) && SparedByAll(storage.key, old(storage.Here()), u, starts) ::
              u in storage.now && storage.now[u] == old(storage.now)[u]
    ensures storage.versionSet ==>
              forall u | u in storage.orig && u !in storage.Replaced() ::
                u in storage.clips && Sealed(storage.key, storage.preview, u, storage.clips[u],
                                             RowOf(storage.images, u), storage.files, storage.orig[u])
  {
    hide AllPreviewable, Sealed, SparedBy, SparedByAll, Unharmed, Storage.Valid, NoNewRisk;
    ghost var init := storage.Here();
    UnharmedAtFirst(storage.key, init);
    for start := 0 to |starts|
      invariant storage.Valid()
      invariant forall u | u in init.now && SparedByAll(storage.key, init, u, starts[..start]) ::
                  Unharmed(storage.key, init, storage.Here(), u)
    {
      var _ := storage.Start(init, starts[start], (i, n) => nonces(start, i, n), false);
      assert starts[..start + 1] == starts[..start] + [starts[start]];
      forall u | u in init.now
        ensures SparedByAll(storage.key, init, u, starts[..start + 1]) ==>
                  SparedByAll(storage.key, init, u, starts[..start]) && SparedBy(storage.key, init, u, starts[start])
      {
        SparedByNext(storage.key, init, u, starts[..start], starts[start]);
      }
    }
    assert starts[..|starts|] == starts;
    ok := storage.Start(init, {}, (i, n) => nonces(|starts|, i, n), true);
    forall u | u in init.now && SparedByAll(storage.key, init, u, starts)
      ensures u in storage.now && storage.now[u] == init.now[u]
    {
      SparedByNext(storage.key, init, u, starts, {});
      UnharmedIsSame(storage.key, init, storage.Here(), u);
    }
    if storage.versionSet {
      forall u | u in storage.orig && u !in storage.Replaced()
        ensures u in storage.clips && Sealed(storage.key, storage.preview, u, storage.clips[u],
                                             RowOf(storage.images, u), storage.files, storage.orig[u])
      {
        storage.SealedInPlace(u);
      }
    }
  }
}
