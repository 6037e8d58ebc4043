# Verified model of the Cubby backend

Cubby is a clipboard manager for Windows. This project models the parts of its
Rust backend whose correctness depends on more than one function, and proves
what they promise. One module per concern; each file opens with what it models.

| concern | modules |
|---|---|
| capture protocol | `ClipboardWorld`, `Capture`, `ClipboardReads`, `Listener`, `CaptureDecision` |
| text extraction | `Rtf`, `RtfMeaning`, `Html`, `HtmlEntities`, `Text`, `Strings` |
| clipboard formats and identity | `CfHtml`, `CfHtmlRoundTrip`, `Utf8`, `Utf16`, `ClipIdentity`, `Relay`, `Dib` |
| forget-on-clear | `Forget` |
| storage encryption and its migration | `Envelope`, `Migration`, `MigrationView`, `MigrationRun`, `ImageFiles`, `FileReplace` |
| backup and restore | `BackupFile`, `Import`, `ImportRun`, `ImageFiles`, `FileReplace` |
| first-run key | `KeyInstall` |
| listing, search, retention | `Listing`, `OcrSearch`, `Retention` |
| reader thread | `ReaderHandOff` |

How the outside world enters the models:

- **Other processes and the clipboard.** `Clipboard.history` fixes, for every
  sequence number, what some process put there; every read first lets the
  number grow by any amount. Proving a method for every `history` and every
  growth covers every interleaving. Two assumptions: a replacement strictly
  increases the sequence number (no wrap-around, no access failure reported as
  zero), and a copy does not change under one number. Remote desktop owners
  break the second one, which is why the source samples them; polling is
  modelled, the changing content is not.
- **Failures.** Any step that can fail takes a nondeterministic outcome. Where a
  result needs a run without failures, that is a `calm` argument of the one call
  (or a constant of the object, `quiet` and `removalsWork`) and the contract
  names it, so faulty calls and calm ones can follow each other.
- **Cryptography** is an assumed AEAD that opens what it sealed at a cost of 16
  bytes (RFC 5116, section 5.2), Base64 an inverse pair (RFC 4648, section 4),
  hashes uninterpreted functions.
- **Concurrency** is a transition relation over runs (`KeyInstall`,
  `ReaderHandOff`) or an object whose methods are the atomic sections, called in
  any order (`Forget`).

## Where the code falls short of what its comments or design suggest

Each is proved, with a concrete case and the exact condition under which the
property holds.

- **RTF `\binN`** (`RtfMeaning.BinReadsItsPayload`, `DigitPayloadSwallowsText`):
  a payload that starts with digits is read as part of the number. The
  specification puts a delimiting space before the payload; the code counts it
  as payload.
- **Entities in HTML** (`HtmlEntities.EscapeRoundTripsIff`,
  `SpelledOutEntityIsLost`): `&amp;` is decoded
  before `&lt;`, so escaped text that spells out `&lt;` comes out as `<`.
- **RTF `\'hh`** (`Rtf.HexEscapePanicsIff`, `SplitCharacterPanics`): the two bytes
  are sliced out of the text as a string, which panics exactly when they end
  inside a character.
- **Relay prediction** (`Relay.RelayPredictsRecapture`,
  `BytesAfterRtfAreMispredicted`): RTF is read back with
  whatever the allocation holds past it, and a format that could not be written
  is skipped; the predicted identity is the re-captured one exactly when every
  format was written and nothing follows the RTF (or there is no RTF).
- **Forget-on-clear** (`Forget.ClipHistory.HitsLaterCopyIffRecopied`,
  `RecopiedPasswordIsForgotten`): the same password copied again reuses its row,
  so a retry of an earlier clear can remove the later copy. It takes something
  else copied in between (or a deletion): the same text twice in a row is dropped
  as a consecutive duplicate. A retry likewise removes a row that was edited
  meanwhile. Own pastes and consecutive duplicates leave the clear target in
  place.
- **Encryption migration** (`MigrationRun.Storage.MigrateEncryptedStorage`,
  `StartRepeatedly`, `Migration.UnreadableFileYieldsThumbnail`): a picture whose
  file cannot be read at that moment is migrated from another copy, possibly its
  thumbnail. A run that gets through changes exactly the clips that were
  unreadable and had another, different copy; a run cut short may also change
  one whose row names a file that is missing, when a part of the staged file is
  left and the next sweep promotes it (`MigrationView.StagedPartIsReadNext`).
  All other originals survive every sequence of starts.
- **Import** (`Import.ConvergesIff`, `DryRunAgreesIff`,
  `RepeatedFormatIsNeverRestored`): a clip that names one
  format twice can never be restored, while a dry run counts it as imported.
  After any faulty restores one undisturbed restore converges exactly when no
  clip still new is of that kind (`ImportRun.RestoreRepeatedly`).
- **Retention** (`Retention.RecognizedPictureSurvivesIff`,
  `CompletedWithoutTextIsDeleted`): a picture whose
  recognition finished without storing any text is deleted, not preserved.
- **Export** (`FileReplace.Directory.PersistBackupFile`,
  `BothBackupsLost`): old and new backup are
  both lost when a delete-then-rename move fails, putting the new file in place
  fails as well, and the temporary file is removed. Staged originals are
  handled differently and never lost (`CommitStagedImage`).
- **Search** (`OcrSearch.FindsItselfIff`, `FinalSigmaFindsNothing`): queries are
  lower-cased as strings, text character by character, so a text is found in
  itself exactly when the two agree. Rust's `to_lowercase` depends on context
  only at a final sigma, which changes one character for one; that law is the
  assumption `FoldsInPlace`.
- **Bitmaps** (`Dib.RgbaToCfDib`, `NoWidthIsAccepted`): a width of zero passes the checks and panics.
- **Reader thread** (`ReaderHandOff.ReadsCanOverlap`,
  `TwoRunningMeansOneGivenUp`): reads overlap, but only with one whose caller
  was told it failed.
- **Hand-over at shutdown** (`Listener.CaptureListener.NoCopyIsWrittenOffSilently`):
  a copy is marked handled just before it is queued, so the one being handed
  over when the consumer goes away is the single exception.

## Model

| member | source | states |
|---|---|---|
| ClipboardWorld.Clipboard.Interfere | src-tauri/src/clipboard.rs:764-774 | between two reads any process may replace the clipboard; the sequence number never goes back |
| ClipboardWorld.Clipboard.ReadOptOut | src-tauri/src/clipboard.rs:659-679 | a privacy DWORD that is present and zero opts out; one that cannot be read is an error, never a permission |
| ClipboardWorld.Clipboard.OwnerIdentity | src-tauri/src/clipboard.rs:3602-3637 | an explicit identity is the owner of the current copy; without one it is whatever is in the foreground |
| ClipboardReads.MarkedSensitive | src-tauri/src/clipboard.rs:594-615 | if the sequence did not move, the four markers are those of the one current copy, or a failure is reported |
| ClipboardReads.RetrySensitiveMarkers | src-tauri/src/clipboard.rs:631-644 | the same after up to ten tries, a timed-out owner ending the tries |
| ClipboardReads.ClipboardIsCleared | src-tauri/src/clipboard.rs:1425-1441 | cleared means the current copy is empty or only an empty text; exact when undisturbed |
| ClipboardReads.ReadTextFormats | src-tauri/src/clipboard.rs:1709-1722 | what each format read reports about one copy: its body, its absence, or not yet known |
| ClipboardReads.MaterializeFromReader | src-tauri/src/clipboard.rs:1638-1703 | a captured payload is the picture, or text and formats, of one copy; a miss means it has nothing to store; undisturbed, the outcome is exactly the policy's |
| ClipboardReads.MaterializeWithGuard | src-tauri/src/clipboard.rs:860-895 | whatever happens between reads, an accepted outcome is about the expected copy only, and an abort names a newer one |
| ClipboardReads.DecisionIsFaithful | src-tauri/src/clipboard_miss.rs:93-132 | a decision made from reads of one copy stores only what that copy holds, and calls a miss final only if it holds nothing |
| ClipboardReads.QuietDecision | src-tauri/src/clipboard_miss.rs:65-132 | with all reads answered there is never a retry, and the decision is picture, text or miss as the copy dictates |
| CaptureDecision.DecisionsAreExact | src-tauri/src/clipboard_miss.rs:93-179 | exactly when a picture, a text, a final miss is decided, and what the text is made of |
| CaptureDecision.UnreadImageChangesNothing | src-tauri/src/clipboard_miss.rs:65-77 | a picture that is not read could not have changed the decision |
| Capture.DeferredAtMostTwice | src-tauri/src/clipboard.rs:912-930 | however often one copy fails in a row, exactly the first two failures earn another try |
| Capture.OrderGrows | src-tauri/src/clipboard.rs:1003-1011 | queueing a copy not yet handled keeps events in sequence order and never repeats a number |
| Capture.QueuedIsAccounted | src-tauri/src/clipboard.rs:1132-1156 | marking handled and queueing keeps every handled copy accounted for, also when the consumer is gone |
| Capture.ExplainedIsAccounted | src-tauri/src/clipboard.rs:1240-1256 | marking handled with an error, a logged picture, nothing to keep, or at startup does too |
| Capture.QuietEventsAreThePolicy | src-tauri/src/clipboard.rs:1023-1156 | for an undisturbed copy the events are the documented policy: cleared, ignored, or one snapshot |
| Listener.CaptureListener.EveryEventIsFaithful | src-tauri/src/clipboard.rs:849-895 | owner, markers and payload of every queued snapshot come from the one copy it names; every clear names a copy seen empty |
| Listener.CaptureListener.NoCopyIsWrittenOffSilently | src-tauri/src/clipboard.rs:897-906 | every copy marked handled was queued, reported cleared, ended in an error, logged, held nothing to keep, or was there at startup |
| Listener.CaptureListener.NoCopyIsQueuedTwice | src-tauri/src/clipboard.rs:1003-1011 | notifications queue strictly increasing numbers, unknown sequence zero apart |
| Listener.CaptureListener.NoteAndQueue | src-tauri/src/clipboard.rs:222-225 | the write of the handled mark before the queueing keeps both book-keeping invariants, even if the queue refuses |
| Listener.CaptureListener.DeferOrExhaust | src-tauri/src/clipboard.rs:1240-1256 | a copy waits at most twice in a row; then it is handled and an error recorded |
| Listener.CaptureListener.CaptureSensitiveMarkers | src-tauri/src/clipboard.rs:618-628 | markers of the bound copy, or the copy is deferred or written off with an error |
| Listener.CaptureListener.ReadMetadata | src-tauri/src/clipboard.rs:1041-1057 | metadata is kept only if all of it describes the bound copy; otherwise the attempt restarts on a newer one with the books unchanged |
| Listener.CaptureListener.FinishCapture | src-tauri/src/clipboard.rs:1099-1157 | a captured payload is queued with its own metadata; a remote owner is revalidated; a poll queues only plain text of its own owner that differs from the last sample |
| Listener.CaptureListener.FinishMiss | src-tauri/src/clipboard.rs:1158-1231 | each way of capturing nothing leaves its account: clear, error, logged picture, ignored, deferred |
| Listener.CaptureListener.CaptureOneBoundSequence | src-tauri/src/clipboard.rs:989-1231 | one attempt is bound to one copy at least as new as the call; undisturbed, it queues exactly what the policy says |
| Listener.CaptureListener.CaptureClipboardUpdate | src-tauri/src/clipboard.rs:934-972 | done and not deferred means everything current at the call is handled; outrun three times means the books are untouched and three newer copies exist |
| Listener.RdpPolling.Observe | src-tauri/src/clipboard.rs:331-338 | only an explicit owner is sampled, and never while the copy that timed out is still the newest announced |
| Listener.RdpPolling.RecordAttempt | src-tauri/src/clipboard.rs:340-348 | a timed-out or exhausted copy disarms sampling until another is announced |
| Listener.RunListenerSession | src-tauri/src/clipboard.rs:1365-1420 | for any number of messages and samples the books stay right and only grow |
| Listener.CatchUp | src-tauri/src/clipboard.rs:1536-1566 | after a restart the current copy is handled and accounted for, deferred, or overtaken, never stamped handled unread |
| Listener.RunNativeListener | src-tauri/src/clipboard.rs:1503-1595 | over any number of sessions, restarts and failures the books are right; only the first session's start is not ingested |
| Rtf.SkipStaysWithinDepth | src-tauri/src/clipboard_miss.rs:328-454 | the depth at which skipping began never exceeds the current depth |
| Rtf.PlainTextFromRtf | src-tauri/src/clipboard_miss.rs:328-454 | the byte loop computes the scan specification, whitespace normalized, or panics where the scan does |
| Rtf.HexEscapePanicsIff | src-tauri/src/clipboard_miss.rs:361-371 | in well-formed text an escape's slice panics exactly when it ends inside a character |
| Rtf.SplitCharacterPanics | src-tauri/src/clipboard_miss.rs:361-371 | a concrete text that does |
| RtfMeaning.ExtractsMeaning | src-tauri/src/clipboard_miss.rs:328-454 | every printed token tree scans to the tree's recursive meaning, without a panic |
| RtfMeaning.SkippedGroupIsSilent | src-tauri/src/clipboard_miss.rs:316-325 | a balanced group opened by a skipped destination or an ignorable mark, whatever it nests, adds no text and restores depth and skip state |
| RtfMeaning.SkippedMeansNothing | src-tauri/src/clipboard_miss.rs:316-325 | nothing inside a skipped group contributes text |
| RtfMeaning.BinReadsItsPayload | src-tauri/src/clipboard_miss.rs:386-406 | the opaque payload read is the announced one exactly when the bytes after the number do not extend it to another |
| RtfMeaning.DigitPayloadSwallowsText | src-tauri/src/clipboard_miss.rs:386-406 | a payload starting with a digit swallows the text after it |
| Html.PlainTextFromHtml | src-tauri/src/clipboard_miss.rs:216-255 | the loop computes the scan of the marked fragment, entities decoded, whitespace normalized |
| Html.SkipElement | src-tauri/src/clipboard_miss.rs:292-311 | skipping ends just past the first closing tag, in any case, or at the end |
| Html.ExtractsMeaning | src-tauri/src/clipboard_miss.rs:216-255 | a document printed from its parts scans to the text of those parts: comments and hidden elements add nothing, breaking tags one space |
| Html.FragmentIsTheSelection | src-tauri/src/clipboard_miss.rs:259-270 | between the first start marker and the next end marker lies exactly what counts |
| HtmlEntities.EscapedTextIsDecodedAgain | src-tauri/src/clipboard_miss.rs:456-464 | properly escaped text comes out decoded once more than it was escaped |
| HtmlEntities.EscapeRoundTripsIff | src-tauri/src/clipboard_miss.rs:456-464 | escaping then decoding is the identity exactly for text that spells out no markup entity |
| HtmlEntities.SpelledOutEntityIsLost | src-tauri/src/clipboard_miss.rs:456-464 | a concrete text that does not survive |
| CfHtmlRoundTrip.OffsetsParse | src-tauri/src/cf_html.rs:38-58 | the four fixed-width offsets written are the four parsed, whatever follows the payload |
| CfHtmlRoundTrip.RoundTrip | src-tauri/src/cf_html.rs:31-114 | parsing what was written yields the document, for HTML not already in the format and payloads under ten digits of size |
| CfHtmlRoundTrip.WrapTwiceIsWrapOnce | src-tauri/src/cf_html.rs:86-114 | wrapping again changes nothing |
| CfHtmlRoundTrip.DocumentIsStable | src-tauri/src/cf_html.rs:64-82 | the document is a fixed point, so re-wrapping what was read writes the same payload |
| CfHtmlRoundTrip.BareFragmentIsDelimited | src-tauri/src/cf_html.rs:64-114 | the declared fragment of a bare fragment is exactly it, even with an end marker inside |
| Utf8.LossyKeepsPrefix | src-tauri/src/clipboard.rs:1659-1664 | lossy decoding keeps well-formed text whole, whatever bytes follow it |
| Utf8.CutBeforeAscii | src-tauri/src/cf_html.rs:31-36 | cutting well-formed text before an ASCII byte keeps it well-formed |
| Utf16.Utf16ClipboardBytes | src-tauri/src/clipboard.rs:2283-2289 | the loop writes the little-endian units of the text and a terminator |
| Utf16.RoundTrip | src-tauri/src/clipboard_reader.rs:295-305 | reading back what was written, with any bytes after it, is the text exactly when it has no NUL |
| ClipIdentity.BuildClipHashMaterial | src-tauri/src/clipboard.rs:3439-3457 | the built buffer is the NUL-joined identity fields; formats count for everything but images |
| ClipIdentity.CapturedClipHash | src-tauri/src/clipboard.rs:507-527 | the streamed bytes are the same material |
| ClipIdentity.JoinInjective | src-tauri/src/clipboard.rs:3439-3457 | NUL-joined NUL-free fields determine the fields |
| ClipIdentity.TextIdentity | src-tauri/src/clipboard.rs:3439-3457 | two NUL-free text clips share an identity exactly when text and ordered formats agree |
| ClipIdentity.NulForgesIdentity | src-tauri/src/clipboard.rs:3439-3457 | with a NUL in the text, another clip's identity can be spelled out |
| ClipIdentity.ImageIdentity | src-tauri/src/clipboard.rs:507-527 | an image's identity is its bitmap, formats ignored, and never a text's |
| Relay.SetRelayedClipboardPayload | src-tauri/src/clipboard.rs:2316-2390 | whatever fails: untouched until the clipboard is cleared, then exactly the encoded text and the formats that could be written; sensitive content stays without its marker only if the withdrawal failed too |
| Relay.RelayPredictsRecapture | src-tauri/src/clipboard.rs:2403-2442 | re-reading a relay's write gives the predicted identity exactly when every format was written and nothing follows the RTF |
| Relay.BytesAfterRtfAreMispredicted | src-tauri/src/clipboard.rs:1659-1664 | a concrete re-capture that is not the predicted one |
| Dib.RgbaToCfDib | src-tauri/src/clipboard.rs:2063-2104 | exactly which sizes are refused, which panics, and the bitmap otherwise |
| Dib.NoWidthIsAccepted | src-tauri/src/clipboard.rs:2065-2078 | a width of zero passes every check |
| Dib.PixelsInPlace | src-tauri/src/clipboard.rs:2080-2104 | the bitmap is 40 bytes and the pixels, each as blue, green, red, alpha at its bottom-up place |
| Dib.ReadsBack | src-tauri/src/clipboard.rs:2082-2104 | reading bottom-up by the header's own sizes recovers every channel |
| Dib.NoOverflow | src-tauri/src/clipboard.rs:2065-2080 | no size computed for an accepted picture leaves its machine word |
| Forget.ClipHistory.ProcessSnapshot | src-tauri/src/clipboard.rs:2538-3132 | text equal to the last stored copy is dropped and changes nothing; a skipped or failed capture leaves no clear target; an accepted one becomes it, reusing the row of its content |
| Forget.ClipHistory.BeginClear | src-tauri/src/clipboard.rs:3185-3225 | a first attempt always consumes the marker, and targets it only inside the window and credential-shaped |
| Forget.ClipHistory.RunAttempt | src-tauri/src/clipboard.rs:3227-3376 | the exact outcome for any failures and any user commands in between, and the whole state after it |
| Forget.ClipHistory.CommitDelete | src-tauri/src/clipboard.rs:3329-3376 | only the unpinned target row goes, and the marker only if it still names that row |
| Forget.ClipHistory.Requeue | src-tauri/src/clipboard.rs:3227-3239 | a failed attempt keeps its own capture for the retry; only a first attempt puts the marker back |
| Forget.ClipHistory.ForgetsOnlyItsTarget | src-tauri/src/clipboard.rs:3185-3225 | over every run, what a clear removed was the in-window credential it had taken, unpinned at that moment |
| Forget.ClipHistory.HitsLaterCopyIffRecopied | src-tauri/src/clipboard.rs:3399-3426 | a retry would remove a copy made after the clear exactly when its row was copied again |
| Forget.ClipHistory.FirstAttemptHitsNoLaterCopy | src-tauri/src/clipboard.rs:3185-3209 | a first attempt never does |
| Forget.AnyRun | src-tauri/src/clipboard.rs:3169-3426 | captures, clears, retries and user commands in any order keep the invariant |
| Forget.RecopiedPasswordIsForgotten | src-tauri/src/clipboard.rs:3399-3426 | a concrete run, past the duplicate check, in which the later copy is removed |
| Envelope.RoundTrip | src-tauri/src/crypto.rs:159-192 | decryption undoes encryption, 32 bytes longer, for every nonce |
| Envelope.TextRoundTrip | src-tauri/src/crypto.rs:205-221 | the same for text envelopes |
| Envelope.SealedOnceForAll | src-tauri/src/commands.rs:489-498 | sealing again under any nonce changes nothing, and a text that only looks sealed is sealed and opens to itself |
| MigrationRun.Storage.ImageRead | src-tauri/src/commands.rs:509-545 | what a run reads is the picture unless its file is unreadable and another, different copy is stored; of a finished clip it is always the picture |
| Migration.UnreadableFileYieldsThumbnail | src-tauri/src/commands.rs:509-545 | a concrete picture that is replaced by its thumbnail |
| Migration.StoredFileIsKept | src-tauri/src/image_persist.rs:34-59 | whatever comes to stand on a managed name, every other clip keeps its original and this one has what was stored |
| Migration.SealedRowIsSafe | src-tauri/src/commands.rs:596-631 | one clip's row update loses nothing and leaves that clip sealed |
| MigrationRun.TextIsSealedOnce | src-tauri/src/commands.rs:489-498 | a field ends under one envelope whether or not an earlier run had sealed it |
| MigrationRun.UpdateSeals | src-tauri/src/commands.rs:583-616 | the row written has every field, content and keyed hash of the original |
| MigrationRun.Storage.PersistFullImageFile | src-tauri/src/image_persist.rs:70-103 | with a stop at any point, delete-then-rename included, nobody else's file changes and this clip has its old picture or the new one, unless its row named a lost file; success leaves the sealed picture in place; a leftover staging file is refused |
| MigrationRun.Storage.RecoverOrDiscard | src-tauri/src/image_persist.rs:38-57 | a replace that failed leaves the picture in place or staged, never neither |
| MigrationView.StagedPartIsReadNext | src-tauri/src/database.rs:108-128 | in place of a lost file, any staged bytes are what the next start reads |
| MigrationRun.Storage.SweepStaleImageTemp | src-tauri/src/database.rs:108-142 | the startup sweep puts a staged file in a missing target's place or removes it, and no clip's next reading changes |
| MigrationRun.Storage.MigrateClip | src-tauri/src/commands.rs:563-639 | with a stop anywhere no other clip changes; a clip that got through is sealed, and changed exactly if misread; undisturbed a picture's old file is gone |
| MigrationRun.Storage.MigrateEncryptedStorage | src-tauri/src/commands.rs:547-648 | for any set of unreadable files: a run that got through changed exactly the clips in it with another, different copy; the version flag means every clip is sealed; undisturbed nothing changes and only an undecodable picture stops it |
| MigrationRun.StartRepeatedly | src-tauri/src/lib.rs:142-146 | after any faulty starts an undisturbed one completes; clips no start could harm hold what they held; once done each original left is under one envelope with its own keyed hash |
| MigrationRun.Storage.KeptUnlessReplaced | src-tauri/src/commands.rs:509-545 | at any moment exactly the clips not on the list of replaced ones still have their original |
| MigrationRun.Storage.SealedInPlace | src-tauri/src/commands.rs:641-646 | with the flag set, every clip is sealed in the files as they are |
| FileReplace.Directory.PersistBackupFile | src-tauri/src/backup.rs:730-766 | the destination is wholly old or wholly new; exactly when both are lost |
| FileReplace.BothBackupsLost | src-tauri/src/backup.rs:748-765 | a concrete save that loses the old and the new backup |
| FileReplace.Directory.CommitStagedImage | src-tauri/src/image_persist.rs:34-59 | a failed commit always leaves a whole original, in place or staged |
| BackupFile.SealedBundleOpens | src-tauri/src/backup.rs:387-457 | a bundle is sealed exactly when it fits the import cap, and then reads back under the same passphrase |
| BackupFile.SmallerCapRefusesMore | src-tauri/src/backup.rs:890-935 | a file accepted under one cap is bounded by it and accepted under any larger one |
| Import.ConvergesIff | src-tauri/src/backup.rs:985-1062 | one undisturbed run stores every readable clip exactly when no new clip names a format twice |
| Import.DryRunAgreesIff | src-tauri/src/backup.rs:1053-1062 | a dry run meets the same duplicates, and promises as many imports exactly under that condition |
| Import.RepeatedFormatIsNeverRestored | src-tauri/src/backup.rs:568-587 | a concrete bundle that a dry run promises and a real run never brings in |
| Import.AddsRestorableContent | src-tauri/src/backup.rs:1033-1062 | exactly which contents a run adds |
| Import.SecondRunImportsNothing | src-tauri/src/backup.rs:1045-1057 | restoring the same bundle again imports nothing |
| Import.StoredClipsAreDuplicates | src-tauri/src/backup.rs:1045-1057 | and calls every readable clip a duplicate once all are stored |
| Import.CountsAddUp | src-tauri/src/backup.rs:974-1062 | every clip is imported, a duplicate or skipped, once |
| ImportRun.Database.PersistImportedFormats | src-tauri/src/backup.rs:568-587 | the formats are stored whole, or a repeated name or a failure stops them |
| ImportRun.Database.RollBack | src-tauri/src/backup.rs:1174-1215 | a rollback removes row, index and formats, and the file only after the row |
| ImportRun.Database.RestoreRow | src-tauri/src/backup.rs:1137-1222 | whichever step or rollback fails: no row and no file, or the row with its file; imported means complete |
| ImportRun.Database.RestoreClip | src-tauri/src/backup.rs:1064-1222 | the same from the first step, with at least one error for a clip not imported |
| ImportRun.Database.ImportBackup | src-tauri/src/backup.rs:955-1229 | existing rows, formats and files untouched, pictures in place, no stray original, counts add up, a dry run changes nothing, an undisturbed run adds exactly the specified contents |
| ImportRun.RestoreRepeatedly | src-tauri/src/backup.rs:955-1229 | after any faulty restores an undisturbed one stores the bundle exactly when no clip still new names a format twice; one row per content, what was there unchanged, and the same again imports nothing |
| KeyInstall.StepIsSafe | src-tauri/src/crypto.rs:296-341 | every step of every process keeps the invariant |
| KeyInstall.KeyFileIsForever | src-tauri/src/crypto.rs:429-450 | once there is a key file it never changes |
| KeyInstall.WrittenAtMostOnce | src-tauri/src/crypto.rs:296-341 | at most one step of any run writes it |
| KeyInstall.EveryoneAgrees | src-tauri/src/crypto.rs:87-136 | all processes that succeed, at whatever moment, hold the key on disk |
| KeyInstall.ExitsLeaveNoTempIff | src-tauri/src/crypto.rs:335-341 | a process past the install step has a temporary file left exactly if its one removal failed |
| KeyInstall.CalmStepsSucceed | src-tauri/src/crypto.rs:296-341 | a process whose own steps do not fail gets closer to holding the key with each |
| KeyInstall.CalmStepExists | src-tauri/src/crypto.rs:87-136 | and can always take one until it does |
| KeyInstall.OthersDoNotDerail | src-tauri/src/crypto.rs:296-341 | and no other process's step stops it |
| Listing.CollectReadableClips | src-tauri/src/commands.rs:411-440 | a page is the first `limit` readable rows from its start, from SQL or from an id list with rows gone |
| Listing.BatchIsItsChunk | src-tauri/src/commands.rs:447-462 | a batch and its exhausted flag say exactly what is left after it |
| Listing.NothingIsSkipped | frontend/src/App.tsx:404-408 | a readable row that stays, on its side of the cursor, is on some page once a page is short |
| Listing.NothingIsRepeated | frontend/src/utils/clipListPage.ts:16-42 | and on no second page |
| Listing.PositionFinds | src-tauri/src/commands.rs:388-404 | the cursor is found where it is, or is nowhere |
| OcrSearch.FindCaseInsensitive | src-tauri/src/commands.rs:172-192 | the earliest start whose whole characters fold to the folded query, and none only if there is none |
| OcrSearch.OneEnd | src-tauri/src/commands.rs:178-188 | a start has at most one matching end |
| OcrSearch.FindsItselfIff | src-tauri/src/commands.rs:172-192 | a text has a match in itself exactly when its string fold is its character fold, and then it is the whole text |
| OcrSearch.FindInItself | src-tauri/src/commands.rs:172-192 | the search for a text in itself answers the whole text under that condition and nothing otherwise |
| OcrSearch.FinalSigmaFindsNothing | src-tauri/src/commands.rs:172-192 | a word ending in a capital sigma does not find itself |
| OcrSearch.OccurrenceMatchesIff | src-tauri/src/commands.rs:172-192 | a literal occurrence of a query is a match exactly when the query's two folds agree |
| OcrSearch.TailChars | src-tauri/src/commands.rs:198-209 | a suffix within the limit that starts at a word, unless one word fills it |
| OcrSearch.HeadChars | src-tauri/src/commands.rs:211-222 | a prefix within the limit that ends at a word, unless one word fills it |
| OcrSearch.Snippet | src-tauri/src/commands.rs:224-278 | at most 96 characters, the match whole unless too long alone, context only from either side's text |
| OcrSearch.BuildOcrMatch | src-tauri/src/commands.rs:224-278 | the snippet is around the earliest match, and absent only without one |
| Retention.Fate | src-tauri/src/commands.rs:2524-2567 | exactly which clips a sweep leaves, and how |
| Retention.PinnedAndCurrentStay | src-tauri/src/commands.rs:2524-2567 | pinned clips and clips not due are unchanged |
| Retention.RecognizedPictureSurvivesIff | src-tauri/src/commands.rs:2534-2550 | a due picture with finished recognition survives exactly when some text was stored, stripped and flagged |
| Retention.CompletedWithoutTextIsDeleted | src-tauri/src/commands.rs:2534-2550 | a concrete one that does not |
| Retention.NothingLeftIsDue | src-tauri/src/commands.rs:2555-2567 | everything live, unpinned and unexpired afterwards is within the window and the cap |
| Retention.CapHolds | src-tauri/src/commands.rs:2555-2567 | no more than the cap of them are left |
| Retention.SecondSweepDoesNothing | src-tauri/src/commands.rs:2524-2656 | a second sweep at the same moment finds nothing to do |
| Retention.ClipStore.EnforceRetention | src-tauri/src/commands.rs:2569-2656 | the two-phase sweep leaves exactly that state and returns exactly the files of the picture rows it removed |
| ReaderHandOff.NoLostWake | src-tauri/src/clipboard_reader.rs:108-119 | a live worker never blocks on a queued job without a wake message pending or about to be posted |
| ReaderHandOff.NoLostJob | src-tauri/src/clipboard_reader.rs:120-135 | what a caller waits for is with its worker, answered, or the worker is gone |
| ReaderHandOff.ValuesAreOwn | src-tauri/src/clipboard_reader.rs:84-96 | calls return in order and a value comes from the caller's own job |
| ReaderHandOff.AbandonedGetsNoJob | src-tauri/src/clipboard_reader.rs:97-102 | an abandoned worker stays so and never gets another job |
| ReaderHandOff.OverlapsAreGivenUp | src-tauri/src/clipboard_reader.rs:97-135 | a job left with an abandoned worker is one whose caller was told it failed |
| ReaderHandOff.TwoRunningMeansOneGivenUp | src-tauri/src/clipboard_reader.rs:97-135 | two reads overlap only if one was given up |
| ReaderHandOff.ReadsCanOverlap | src-tauri/src/clipboard_reader.rs:120-127 | a run in which they do |
| ReaderHandOff.WorkIsValid | src-tauri/src/clipboard_reader.rs:138-183 | the worker's loop, with spurious messages, panics and quitting, keeps the invariant |

## Left out

- Remote desktop copies whose data changes under one sequence number: polling and its disarming are modelled, such changes are not.
- Sequence-number wrap-around, and a sequence of zero reported for lack of access.
- Snapshot queue eviction under flood and the release of self-paste markers: src-tauri/src/clipboard/snapshot_queue.rs and ignore_hash.rs decide per event; the model's queue never evicts.
- Forget.ClipHistory.ProcessSnapshot: takes the verdict of ignore rules, secret scanning and relay as an input (`gate`); whether a copy is a consecutive duplicate is computed. Retention after a capture is left out.
- Executable lookup for a process id, icons and application names.
- Picture decoding, bitmap readers, thumbnails: a picture is its PNG bytes and `preview` a partial function.
- MigrationRun.Storage.MigrateClip: assumes that no two clips share a file, and before the first start no staging file is there.
- Html.PlainTextFromHtml: works on characters after UTF-8 decoding, as the source does.
- Relay.SetRelayedClipboardPayload: leaves out the relay of images.
- Import.ConvergesIff: assumes nobody else writes to the database during a run; a failed folder lookup only adds an error.
- ImportRun.Database.RestoreRow: a row whose rollback failed stays without some formats, and a later run calls it a duplicate.
- Export's collection of rows and fields, the JSON of a bundle, passphrase rules.
- KeyInstall.ExitsLeaveNoTempIff: says nothing of a failed write before the install step, which may leave a part behind.
- Listing.CollectReadableClips: takes the source as unchanged within one page request; it may change between requests.
- Listing.NothingIsSkipped: a clip copied again or pinned between pages changes its place and is outside the condition.
- Retention.ClipStore.EnforceRetention: one clock value and ties by identifier, where the source's overflow query orders by creation time alone.
- Recognized-word layout and highlight boxes: per-word arithmetic with no property across functions.
- Duplicate collapsing, the format-model migration, the search index, settings, window and tray code, the user interface.
