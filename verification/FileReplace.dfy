/** Writing a file beside its destination and moving it over. On file systems
    that replace by deleting first, the move may fail with the destination
    already gone; two writers recover from that differently. */
module FileReplace {
  import opened Wrappers

  datatype Name = Destination | Staged

  datatype MoveOutcome = Moved | FailedIntact | FailedDestinationGone

  /** What goes wrong in one replacement. */
  datatype Faults = Faults(writeFails: Option<string>, move: MoveOutcome, recoveryFails: bool, removalFails: bool)

  class Directory {
    var files: map<Name, string>

    constructor (files: map<Name, string>)
      ensures this.files == files
    {
      this.files := files;
    }

    /** The replacing move, atomic or delete-then-rename. */
    method Replace(outcome: MoveOutcome) returns (ok: bool)
      requires Staged in files
      modifies this
      ensures ok == outcome.Moved?
      ensures files == match outcome
                       case Moved => map[Destination := old(files)[Staged]]
                       case FailedIntact => old(files)
                       case FailedDestinationGone => old(files) - {Destination}
    {
      match outcome
      case Moved =>
        files := map[Destination := files[Staged]];
        ok := true;
      case FailedIntact =>
        ok := false;
      case FailedDestinationGone =>
        files := files - {Destination};
        ok := false;
    }

    /** With the destination gone, put the staged file in its place. */
    method RecoverDestGoneReplace(fails: bool) returns (ok: bool)
      modifies this
      ensures ok <==> Destination !in old(files) && Staged in old(files) && !fails
      ensures files == if ok then map[Destination := old(files)[Staged]] else old(files)
    {
      ok := Destination !in files && Staged in files && !fails;
      if ok {
        files := map[Destination := files[Staged]];
      }
    }

    method RemoveStaged(fails: bool)
      modifies this
      ensures files == if fails then old(files) else old(files) - {Staged}
    {
      if !fails {
        files := files - {Staged};
      }
    }

    /** Save a backup. The destination is the whole old file or the whole new
        one, never part of either. It is lost, with the new one, exactly when
        the move fails with the destination gone, putting the staged file in
        its place fails too, and the staged file is then removed. */
    method PersistBackupFile(bytes: string, faults: Faults) returns (ok: bool)
      requires Staged !in files
      modifies this
      ensures ok ==> files == map[Destination := bytes]
      ensures Destination in files ==>
        files[Destination] == bytes || (Destination in old(files) && files[Destination] == old(files)[Destination])
      ensures !ok && !faults.removalFails ==> Staged !in files
      ensures !ok && Destination in files ==> Destination in old(files) && files[Destination] == old(files)[Destination]
      ensures Destination in old(files) ==>
        (Destination !in files && Staged !in files
         <==> faults.writeFails.None? && faults.move.FailedDestinationGone? && faults.recoveryFails && !faults.removalFails)
    {
      if faults.writeFails.Some? {
        files := files[Staged := faults.writeFails.value];
        RemoveStaged(faults.removalFails);
        return false;
      }
      files := files[Staged := bytes];
      ok := Replace(faults.move);
      if !ok {
        ok := RecoverDestGoneReplace(faults.recoveryFails);
      }
      if !ok {
        RemoveStaged(faults.removalFails);
      }
    }

    /** Put a staged original in place. A failure keeps the previous original,
        or, with that gone, the staged one: some whole original always stays. */
    method CommitStagedImage(bytes: string, faults: Faults) returns (ok: bool)
      requires Staged in files && files[Staged] == bytes
      modifies this
      ensures ok ==> files == map[Destination := bytes]
      ensures !ok && Destination in files ==> Destination in old(files) && files[Destination] == old(files)[Destination]
      ensures Destination in old(files) && Destination !in files ==> Staged in files && files[Staged] == bytes
      ensures !ok && Destination in files && !faults.removalFails ==> Staged !in files
    {
      ok := Replace(faults.move);
      if ok {
        return;
      }
      ok := RecoverDestGoneReplace(faults.recoveryFails);
      if ok {
        return;
      }
      if Destination in files {
        RemoveStaged(faults.removalFails);
      }
    }
  }

  /** Both backups gone: the move fails after deleting, so does the recovery. */
  method BothBackupsLost(previous: string, bytes: string) returns (directory: Directory)
    ensures directory.files == map[]
  {
    directory := new Directory(map[Destination := previous]);
    var ok := directory.PersistBackupFile(bytes, Faults(None, FailedDestinationGone, true, false));
    assert directory.files == map[] by {
      assert forall name | name in directory.files :: name == Destination || name == Staged;
    }
  }
}
