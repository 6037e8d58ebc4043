/** The one-time encryption of existing storage, which may be cut short at any
    step and started again any number of times. */
module Migration {
  import opened Wrappers
  import opened Envelope
  import opened ImageFiles

  datatype Clip = Clip(image: bool, content: Bytes, preview: string, hash: Bytes, attributes: seq<Option<string>>)

  datatype ImageRow = ImageRow(path: Option<Path>, fullContent: Bytes)

  /** What the user had before the migration: text or full picture, preview,
      source application, icon and metadata. */
  datatype Original = Original(image: bool, bytes: Bytes, preview: string, attributes: seq<Option<string>>)

  // ------------------------------------------------------------ specification

  function Opened(key: Key, stored: Bytes): Bytes {
    match Decrypt(key, stored)
    case Some(plaintext) => plaintext
    case None => stored
  }

  /** The full picture, from its file, its row or its clip, in that order. */
  function ImageBytes(key: Key, clip: Clip, row: Option<ImageRow>, files: map<Path, Bytes>, readFails: bool)
    : Option<(Bytes, Option<Path>)>
  {
    if row.Some? && row.value.path.Some? && row.value.path.value in files && !readFails then
      Some((Opened(key, files[row.value.path.value]), row.value.path))
    else if row.Some? && |row.value.fullContent| > 0 then Some((Opened(key, row.value.fullContent), row.value.path))
    else if |clip.content| > 0 && !IsEncrypted(key, clip.content) then Some((clip.content, None))
    else None
  }

  predicate TextKept(key: Key, stored: string, original: string) {
    stored == original || DecryptText(key, stored) == Some(original)
  }

  predicate AttributeKept(key: Key, stored: Option<string>, original: Option<string>) {
    stored.Some? == original.Some? && (stored.Some? ==> TextKept(key, stored.value, original.value))
  }

  predicate FieldsKept(key: Key, clip: Clip, o: Original) {
    && clip.image == o.image
    && TextKept(key, clip.preview, o.preview)
    && |clip.attributes| == |o.attributes|
    && forall k | 0 <= k < |o.attributes| :: AttributeKept(key, clip.attributes[k], o.attributes[k])
  }

  predicate FieldsSealed(key: Key, clip: Clip, o: Original) {
    && clip.image == o.image
    && DecryptText(key, clip.preview) == Some(o.preview)
    && |clip.attributes| == |o.attributes|
    && (forall k | 0 <= k < |o.attributes| :: clip.attributes[k].Some? == o.attributes[k].Some?)
    && (forall k | 0 <= k < |o.attributes| && o.attributes[k].Some? ::
          DecryptText(key, clip.attributes[k].value) == o.attributes[k])
  }

  function RowOf(images: map<nat, ImageRow>, uuid: nat): Option<ImageRow> {
    if uuid in images then Some(images[uuid]) else None
  }

  /** The original can still be had, in the clear or under one envelope. */
  predicate Kept(key: Key, clip: Clip, row: Option<ImageRow>, files: map<Path, Bytes>, o: Original) {
    && FieldsKept(key, clip, o)
    && (if o.image then ImageBytes(key, clip, row, files, false).Some?
                        && ImageBytes(key, clip, row, files, false).value.0 == o.bytes
        else Opened(key, clip.content) == o.bytes)
  }

  /** The clip is done: one envelope around each original, nothing in the clear. */
  predicate Sealed(key: Key, preview: Bytes -> Option<Bytes>, uuid: nat, clip: Clip, row: Option<ImageRow>,
                   files: map<Path, Bytes>, o: Original)
  {
    && FieldsSealed(key, clip, o)
    && clip.hash == key.mac(o.bytes)
    && (if o.image then
          && preview(o.bytes).Some? && Decrypt(key, clip.content) == preview(o.bytes)
          && row == Some(ImageRow(Some(Managed(uuid)), []))
          && Managed(uuid) in files && Decrypt(key, files[Managed(uuid)]) == Some(o.bytes)
        else Decrypt(key, clip.content) == Some(o.bytes))
  }

  /** No original happens to be a valid envelope itself. */
  predicate InTheClear(key: Key, o: Original) { !IsEncrypted(key, o.bytes) && TextsInTheClear(key, o) }

  predicate TextsInTheClear(key: Key, o: Original) {
    && !IsEncryptedText(key, o.preview)
    && forall k | 0 <= k < |o.attributes| && o.attributes[k].Some? :: !IsEncryptedText(key, o.attributes[k].value)
  }

  /** No two clips share a file, and none owns another's managed name. */
  ghost predicate OwnFiles(images: map<nat, ImageRow>) {
    && (forall u | u in images && images[u].path.Some? :: images[u].path.value.Temp? == false)
    && (forall u | u in images && images[u].path.Some? && images[u].path.value.Managed? :: images[u].path.value.uuid == u)
    && (forall u, v | u in images && v in images && images[u].path.Some? && images[u].path == images[v].path :: u == v)
  }

  /** Failing to read the file is harmless: there is no other copy to fall back
      on, or it is the same picture. */
  predicate MisreadIsSafe(key: Key, clip: Clip, row: ImageRow, picture: Bytes) {
    if |row.fullContent| > 0 then Opened(key, row.fullContent) == picture
    else |clip.content| == 0 || IsEncrypted(key, clip.content) || clip.content == picture
  }

  /** A transient failure to read the file sends the migration to another copy,
      here the thumbnail, which replaces the full picture. */
  lemma {:induction false} UnreadableFileYieldsThumbnail(key: Key)
    requires Lawful(key)
    ensures exists clip: Clip, row: ImageRow, files: map<Path, Bytes>, o: Original ::
              o.image && InTheClear(key, o) && Kept(key, clip, Some(row), files, o)
              && ImageBytes(key, clip, Some(row), files, true).Some?
              && ImageBytes(key, clip, Some(row), files, true).value.0 != o.bytes
  {
    var (picture: Bytes, thumbnail: Bytes) := ([1, 2], [1]);
    assert !(ENVELOPE_MAGIC <= picture) && !(ENVELOPE_MAGIC <= thumbnail);
    var clip := Clip(true, thumbnail, "", [], []);
    var row := ImageRow(Some(Legacy(0)), []);
    var files := map[Legacy(0) := picture];
    var o := Original(true, picture, "", []);
    assert ImageBytes(key, clip, Some(row), files, true) == Some((thumbnail, None));
    assert Kept(key, clip, Some(row), files, o);
    assert InTheClear(key, o);
  }

  // ------------------------------------------------------ what each step keeps

  ghost predicate AllKept(key: Key, clips: map<nat, Clip>, images: map<nat, ImageRow>, files: map<Path, Bytes>,
                          orig: map<nat, Original>)
  {
    clips.Keys == orig.Keys && forall u | u in orig :: Kept(key, clips[u], RowOf(images, u), files, orig[u])
  }

  ghost predicate AllSealed(key: Key, preview: Bytes -> Option<Bytes>, clips: map<nat, Clip>,
                            images: map<nat, ImageRow>, files: map<Path, Bytes>, orig: map<nat, Original>, done: set<nat>)
  {
    clips.Keys == orig.Keys && done <= orig.Keys
    && forall u | u in done :: Sealed(key, preview, u, clips[u], RowOf(images, u), files, orig[u])
  }

  /** Two file systems agree wherever some clip still looks. */
  ghost predicate SameForAll(images: map<nat, ImageRow>, files: map<Path, Bytes>, after: map<Path, Bytes>) {
    forall u | u in images && images[u].path.Some? ::
      && (images[u].path.value in files <==> images[u].path.value in after)
      && (images[u].path.value in files ==> files[images[u].path.value] == after[images[u].path.value])
  }

  lemma {:induction false} UnreadFilesDoNotMatter(key: Key, preview: Bytes -> Option<Bytes>, clips: map<nat, Clip>,
                                                  images: map<nat, ImageRow>, files: map<Path, Bytes>,
                                                  after: map<Path, Bytes>, orig: map<nat, Original>, done: set<nat>)
    requires AllKept(key, clips, images, files, orig) && AllSealed(key, preview, clips, images, files, orig, done)
    requires SameForAll(images, files, after)
    ensures AllKept(key, clips, images, after, orig) && AllSealed(key, preview, clips, images, after, orig, done)
  {
    hide Decrypt, FieldsKept, FieldsSealed, Opened;
    forall u | u in orig
      ensures Kept(key, clips[u], RowOf(images, u), after, orig[u])
    {
      assert Kept(key, clips[u], RowOf(images, u), files, orig[u]);
    }
    forall u | u in done
      ensures Sealed(key, preview, u, clips[u], RowOf(images, u), after, orig[u])
    {
      assert Sealed(key, preview, u, clips[u], RowOf(images, u), files, orig[u]);
    }
  }

  /** The files as the next start will find them: its sweep puts a staged file
      in the place of a missing target, and removes it beside a present one. */
  function Promoted(files: map<Path, Bytes>): map<Path, Bytes> {
    map q | q in files.Keys + (set p | p in files && p.Temp? :: Managed(p.uuid)) ::
      if q in files then files[q] else files[Temp(q.uuid)]
  }

  lemma {:induction false} PromotedAt(files: map<Path, Bytes>, q: Path)
    ensures q in Promoted(files) <==> q in files || (q.Managed? && Temp(q.uuid) in files)
    ensures q in files ==> Promoted(files)[q] == files[q]
    ensures q !in files && q.Managed? && Temp(q.uuid) in files ==> Promoted(files)[q] == files[Temp(q.uuid)]
  {
  }

  predicate NamesManaged(images: map<nat, ImageRow>, uuid: nat) {
    uuid in images && images[uuid].path == Some(Managed(uuid))
  }

  /** What each clip's original has become once `stored` is what its managed
      name holds: another picture, if its row names that file. */
  function WithStored(key: Key, now: map<nat, Original>, images: map<nat, ImageRow>, uuid: nat, stored: Bytes)
    : map<nat, Original>
  {
    if uuid in now && now[uuid].image && NamesManaged(images, uuid)
    then now[uuid := now[uuid].(bytes := Opened(key, stored))] else now
  }

  /** Whatever comes to stand under one managed name, every other clip keeps
      its original, and this one has what was stored. */
  lemma {:induction false} StoredFileIsKept(key: Key, preview: Bytes -> Option<Bytes>, clips: map<nat, Clip>,
                                            images: map<nat, ImageRow>, files: map<Path, Bytes>, after: map<Path, Bytes>,
                                            uuid: nat, stored: Bytes, now: map<nat, Original>, done: set<nat>)
    requires AllKept(key, clips, images, files, now) && AllSealed(key, preview, clips, images, files, now, done)
    requires OwnFiles(images) && SameForOthers(images, files, after, uuid)
    requires Managed(uuid) in after && after[Managed(uuid)] == stored
    requires uuid in done && now[uuid].image ==> Decrypt(key, stored) == Some(now[uuid].bytes)
    ensures AllKept(key, clips, images, after, WithStored(key, now, images, uuid, stored))
    ensures AllSealed(key, preview, clips, images, after, WithStored(key, now, images, uuid, stored), done)
  {
    hide Decrypt, FieldsSealed;
    var later := WithStored(key, now, images, uuid, stored);
    forall u | u in later
      ensures Kept(key, clips[u], RowOf(images, u), after, later[u])
    {
      assert Kept(key, clips[u], RowOf(images, u), files, now[u]);
      KeptAfterStore(key, clips[u], images, files, after, uuid, stored, now, u);
    }
    hide FieldsKept, Kept, Opened;
    forall u | u in done
      ensures Sealed(key, preview, u, clips[u], RowOf(images, u), after, later[u])
    {
      assert Sealed(key, preview, u, clips[u], RowOf(images, u), files, now[u]);
      SealedAfterStore(key, preview, clips[u], images, files, after, uuid, stored, now, u);
    }
  }

  /** Two file systems agree wherever a clip looks, but for one managed name. */
  ghost predicate SameForOthers(images: map<nat, ImageRow>, files: map<Path, Bytes>, after: map<Path, Bytes>, uuid: nat) {
    forall u | u in images && images[u].path.Some? && images[u].path != Some(Managed(uuid)) ::
      && (images[u].path.value in files <==> images[u].path.value in after)
      && (images[u].path.value in files ==> files[images[u].path.value] == after[images[u].path.value])
  }

  lemma {:induction false} KeptAfterStore(key: Key, clip: Clip, images: map<nat, ImageRow>, files: map<Path, Bytes>,
                                          after: map<Path, Bytes>, uuid: nat, stored: Bytes, now: map<nat, Original>,
                                          u: nat)
    requires u in now && Kept(key, clip, RowOf(images, u), files, now[u])
    requires OwnFiles(images) && SameForOthers(images, files, after, uuid)
    requires Managed(uuid) in after && after[Managed(uuid)] == stored
    ensures u in WithStored(key, now, images, uuid, stored)
    ensures Kept(key, clip, RowOf(images, u), after, WithStored(key, now, images, uuid, stored)[u])
  {
    hide Decrypt, TextKept;
  }

  lemma {:induction false} SealedAfterStore(key: Key, preview: Bytes -> Option<Bytes>, clip: Clip,
                                            images: map<nat, ImageRow>, files: map<Path, Bytes>, after: map<Path, Bytes>,
                                            uuid: nat, stored: Bytes, now: map<nat, Original>, u: nat)
    requires u in now && Sealed(key, preview, u, clip, RowOf(images, u), files, now[u])
    requires SameForOthers(images, files, after, uuid) && Managed(uuid) in after && after[Managed(uuid)] == stored
    requires u == uuid && now[u].image ==> Decrypt(key, stored) == Some(now[u].bytes)
    ensures u in WithStored(key, now, images, uuid, stored)
    ensures Sealed(key, preview, u, clip, RowOf(images, u), after, WithStored(key, now, images, uuid, stored)[u])
  {
    hide Decrypt, FieldsSealed;
    if u == uuid && now[u].image {
      assert Opened(key, stored) == now[u].bytes;
    }
  }

  lemma {:induction false} SealedIsKept(key: Key, preview: Bytes -> Option<Bytes>, uuid: nat, clip: Clip,
                                        row: Option<ImageRow>, files: map<Path, Bytes>, o: Original)
    requires Sealed(key, preview, uuid, clip, row, files, o)
    ensures Kept(key, clip, row, files, o)
  {
    hide Decrypt, DecryptText;
  }

  lemma {:induction false} ManagedFilesAreOwn(images: map<nat, ImageRow>, uuid: nat)
    requires OwnFiles(images)
    ensures OwnFiles(images[uuid := ImageRow(Some(Managed(uuid)), [])])
  {
  }

  function ImagesAfter(images: map<nat, ImageRow>, uuid: nat, image: bool): map<nat, ImageRow> {
    if image then images[uuid := ImageRow(Some(Managed(uuid)), [])] else images
  }

  /** One clip's rows change together, to sealed ones of what it now holds. */
  lemma {:induction false} SealedRowIsSafe(key: Key, preview: Bytes -> Option<Bytes>, clips: map<nat, Clip>,
                                           images: map<nat, ImageRow>, files: map<Path, Bytes>, uuid: nat, clip: Clip,
                                           now: map<nat, Original>, o: Original, done: set<nat>)
    requires AllKept(key, clips, images, files, now) && AllSealed(key, preview, clips, images, files, now, done)
    requires uuid in now
    requires var after := ImagesAfter(images, uuid, o.image);
             Sealed(key, preview, uuid, clip, RowOf(after, uuid), files, o)
    ensures var after := ImagesAfter(images, uuid, o.image);
            && AllKept(key, clips[uuid := clip], after, files, now[uuid := o])
            && AllSealed(key, preview, clips[uuid := clip], after, files, now[uuid := o], done + {uuid})
  {
    var after := ImagesAfter(images, uuid, o.image);
    SealedIsKept(key, preview, uuid, clip, RowOf(after, uuid), files, o);
    hide Kept, Sealed;
    forall u | u in now
      ensures Kept(key, clips[uuid := clip][u], RowOf(after, u), files, now[uuid := o][u])
    {
      assert u != uuid ==> RowOf(after, u) == RowOf(images, u);
    }
    forall u | u in done + {uuid}
      ensures Sealed(key, preview, u, clips[uuid := clip][u], RowOf(after, u), files, now[uuid := o][u])
    {
      assert u != uuid ==> RowOf(after, u) == RowOf(images, u);
    }
  }
}
