/** Forgetting a credential when the clipboard is cleared: captures, clears,
    retries and user commands interleaved in any order, with any database
    failure at any point. */
module Forget {
  import opened Wrappers

  datatype Row = Row(hash: nat, pinned: bool, deleted: bool, copiedAt: nat)

  /** The last accepted capture, while a clear may still forget it. */
  datatype RecentCapture = RecentCapture(uuid: nat, capturedAt: nat, credentialLike: bool)

  datatype Job = Job(attemptsLeft: nat, capture: RecentCapture)

  /** What a clear's first attempt found: when, and which marker it took. */
  datatype ClearRecord = ClearRecord(at: nat, taken: Option<RecentCapture>)

  datatype Deletion = Deletion(uuid: nat, row: Row)

  datatype Copy = Copy(hash: nat, image: bool, credentialShaped: bool)

  /** What the gates before deduplication make of a snapshot. */
  datatype Gate = OwnPaste | Skip | Pass

  /** The stored row of a picture copied twice in a row, as its lookup saw it. */
  datatype StoredOriginal = Missing | Found(fullImageExpired: bool) | Unknown

  /** How far storing gets; a later step may fail with the row written. */
  datatype Storing = Stored | FailedBeforeRow | FailedAfterRow

  datatype SnapshotFate = Ignored | ConsecutiveDuplicate | Skipped | Failed(wroteRow: bool) | Accepted

  /** A picture copied again may have to revive its expired original. */
  predicate ConsecutiveDedupSkips(stored: StoredOriginal) {
    stored.Missing? || (stored.Found? && !stored.fullImageExpired)
  }

  /** Text like the last stored copy is dropped before it touches anything. */
  function FateOf(lastStable: Option<nat>, copy: Copy, gate: Gate, stored: StoredOriginal, storing: Storing): SnapshotFate {
    match gate
    case OwnPaste => Ignored
    case Skip => Skipped
    case Pass =>
      if lastStable == Some(copy.hash) && (!copy.image || ConsecutiveDedupSkips(stored)) then ConsecutiveDuplicate
      else match storing
        case Stored => Accepted
        case FailedBeforeRow => Failed(false)
        case FailedAfterRow => Failed(true)
  }

  datatype Faults = Faults(lookup: bool, begin: bool, delete: bool, commit: bool)

  datatype Outcome = Forgot | Requeued | LeftAlone

  const FORGET_WINDOW_MS: nat := 90_000
  const FORGET_ON_CLEAR_ATTEMPTS: nat := 3

  predicate ShouldForgetRecentCapture(capturedAt: nat, clearedAt: nat) {
    capturedAt <= clearedAt <= capturedAt + FORGET_WINDOW_MS
  }

  function NextForgetAttempts(attemptsLeft: nat): Option<nat> {
    if attemptsLeft > 1 then Some(attemptsLeft - 1) else None
  }

  /** What a user may do to the history meanwhile: pin, unpin, delete, or edit a
      clip to a text no other clip has. */
  predicate UserMay(before: map<nat, Row>, after: map<nat, Row>) {
    && (forall u | u in after :: u in before && after[u].copiedAt == before[u].copiedAt)
    && (forall u, v | u in after && v in after && after[u].hash == after[v].hash :: u == v)
  }

  /** Deleting or editing a clip forgets which copy was stored last. */
  predicate ResetsDedup(before: map<nat, Row>, after: map<nat, Row>) {
    exists u | u in before :: u !in after || (after[u].deleted && !before[u].deleted) || after[u].hash != before[u].hash
  }

  function Meddled(rows: map<nat, Row>, wish: map<nat, Row>): map<nat, Row> {
    if UserMay(rows, wish) then wish else rows
  }

  /** What one attempt at `uuid` comes to, given the rows its lookup saw and the
      rows its guarded delete saw. */
  function Attempted(uuid: nat, seen: map<nat, Row>, present: map<nat, Row>, faults: Faults): Outcome {
    if faults.lookup then Requeued
    else if uuid !in seen || seen[uuid].pinned || seen[uuid].deleted then LeftAlone
    else GuardedDelete(uuid, present, faults)
  }

  function GuardedDelete(uuid: nat, present: map<nat, Row>, faults: Faults): Outcome {
    if faults.begin || faults.delete then Requeued
    else if uuid !in present || present[uuid].pinned then LeftAlone
    else if faults.commit then Requeued
    else Forgot
  }

  predicate ForgettableNow(marker: Option<RecentCapture>, now: nat) {
    marker.Some? && marker.value.credentialLike && ShouldForgetRecentCapture(marker.value.capturedAt, now)
  }

  lemma {:induction false} SomeIsForgettable(marker: Option<RecentCapture>, now: nat)
    requires ForgettableNow(marker, now)
    ensures marker.Some?
  {
  }

  // ------------------------------------------------------------- invariants

  ghost predicate RowsValid(rows: map<nat, Row>, now: nat, nextUuid: nat) {
    && (forall u | u in rows :: u < nextUuid && rows[u].copiedAt <= now)
    && (forall u, v | u in rows && v in rows && rows[u].hash == rows[v].hash :: u == v)
  }

  ghost predicate MarkerValid(rows: map<nat, Row>, marker: Option<RecentCapture>, now: nat, nextUuid: nat) {
    marker.Some? ==>
      && marker.value.capturedAt <= now && marker.value.uuid < nextUuid
      && (marker.value.uuid in rows ==> rows[marker.value.uuid].copiedAt == marker.value.capturedAt)
  }

  /** `capture` is the credential that clear number `clear` may forget: it was
      the marker when the clear's first attempt ran, inside the window. */
  ghost predicate TargetOf(clears: seq<ClearRecord>, clear: nat, capture: RecentCapture) {
    && clear < |clears|
    && clears[clear].taken == Some(capture)
    && capture.credentialLike
    && ShouldForgetRecentCapture(capture.capturedAt, clears[clear].at)
  }

  /** The row is as the capture left it, or was copied again after the clear. */
  predicate LeftOrRecopied(row: Row, clearedAt: nat, capture: RecentCapture) {
    row.copiedAt == capture.capturedAt || clearedAt < row.copiedAt
  }

  ghost predicate Pending(rows: map<nat, Row>, clears: seq<ClearRecord>, now: nat, nextUuid: nat, clear: nat,
                          capture: RecentCapture)
  {
    && TargetOf(clears, clear, capture)
    && clears[clear].at <= now
    && capture.uuid < nextUuid
    && (capture.uuid in rows ==> LeftOrRecopied(rows[capture.uuid], clears[clear].at, capture))
  }

  ghost predicate JobsValid(rows: map<nat, Row>, clears: seq<ClearRecord>, now: nat, nextUuid: nat, jobs: map<nat, Job>) {
    forall c | c in jobs ::
      Pending(rows, clears, now, nextUuid, c, jobs[c].capture) && 0 < jobs[c].attemptsLeft <= FORGET_ON_CLEAR_ATTEMPTS
  }

  /** What a clear removed was its own target, unpinned when it went. */
  ghost predicate ForgottenRight(clears: seq<ClearRecord>, clear: nat, d: Deletion) {
    && clear < |clears| && clears[clear].taken.Some?
    && TargetOf(clears, clear, clears[clear].taken.value)
    && d.uuid == clears[clear].taken.value.uuid
    && !d.row.pinned
    && LeftOrRecopied(d.row, clears[clear].at, clears[clear].taken.value)
  }

  ghost predicate LogValid(clears: seq<ClearRecord>, forgotten: map<nat, Deletion>, jobs: map<nat, Job>) {
    forall c | c in forgotten :: c !in jobs && ForgottenRight(clears, c, forgotten[c])
  }

  lemma {:induction false} ClearKeepsJobs(rows: map<nat, Row>, clears: seq<ClearRecord>, now: nat, nextUuid: nat,
                                          jobs: map<nat, Job>, forgotten: map<nat, Deletion>, record: ClearRecord)
    requires JobsValid(rows, clears, now, nextUuid, jobs) && LogValid(clears, forgotten, jobs)
    ensures JobsValid(rows, clears + [record], now, nextUuid, jobs)
    ensures LogValid(clears + [record], forgotten, jobs)
    ensures |clears| !in jobs && |clears| !in forgotten
  {
    hide LeftOrRecopied, ShouldForgetRecentCapture;
    forall c | c in forgotten
      ensures ForgottenRight(clears + [record], c, forgotten[c])
    {
      assert ForgottenRight(clears, c, forgotten[c]);
    }
  }

  lemma {:induction false} TargetBecomesJob(rows: map<nat, Row>, clears: seq<ClearRecord>, now: nat, nextUuid: nat,
                                            jobs: map<nat, Job>, forgotten: map<nat, Deletion>, target: RecentCapture)
    requires JobsValid(rows, clears, now, nextUuid, jobs) && LogValid(clears, forgotten, jobs)
    requires MarkerValid(rows, Some(target), now, nextUuid) && ForgettableNow(Some(target), now)
    requires |clears| > 0 && clears[|clears| - 1] == ClearRecord(now, Some(target)) && |clears| - 1 !in forgotten
    ensures var added := jobs[|clears| - 1 := Job(FORGET_ON_CLEAR_ATTEMPTS, target)];
            JobsValid(rows, clears, now, nextUuid, added) && LogValid(clears, forgotten, added)
  {
    hide ForgottenRight;
  }

  /** Accepting a copy keeps one row per content. */
  lemma {:induction false} CopyKeepsRows(rows: map<nat, Row>, uuid: nat, row: Row, now: nat, nextUuid: nat)
    requires RowsValid(rows, now, nextUuid) && row.copiedAt == now + 1 && uuid <= nextUuid
    requires forall u | u in rows && rows[u].hash == row.hash :: u == uuid
    ensures RowsValid(rows[uuid := row], now + 1, if uuid < nextUuid then nextUuid else uuid + 1)
  {
  }

  lemma {:induction false} OneRowPerContent(rows: map<nat, Row>, now: nat, nextUuid: nat, uuid: nat)
    requires RowsValid(rows, now, nextUuid) && uuid in rows
    ensures uuid < nextUuid && forall u | u in rows && rows[u].hash == rows[uuid].hash :: u == uuid
  {
  }

  lemma {:induction false} FreshUuid(rows: map<nat, Row>, now: nat, nextUuid: nat)
    requires RowsValid(rows, now, nextUuid)
    ensures nextUuid !in rows
  {
  }

  /** Rows may go or be pinned; the ones that stay keep their last copy time. */
  lemma {:induction false} FewerRowsKeepJobs(rows: map<nat, Row>, after: map<nat, Row>, clears: seq<ClearRecord>,
                                             now: nat, nextUuid: nat, jobs: map<nat, Job>)
    requires JobsValid(rows, clears, now, nextUuid, jobs) && RowsValid(rows, now, nextUuid) && UserMay(rows, after)
    ensures JobsValid(after, clears, now, nextUuid, jobs) && RowsValid(after, now, nextUuid)
  {
    hide TargetOf;
  }

  /** An accepted copy is newer than every clear so far. */
  lemma {:induction false} CopyKeepsJobs(rows: map<nat, Row>, uuid: nat, row: Row, clears: seq<ClearRecord>,
                                         now: nat, nextUuid: nat, jobs: map<nat, Job>)
    requires JobsValid(rows, clears, now, nextUuid, jobs) && row.copiedAt == now + 1
    ensures JobsValid(rows[uuid := row], clears, now + 1, if uuid < nextUuid then nextUuid else uuid + 1, jobs)
  {
    hide TargetOf;
  }

  lemma {:induction false} MarkerOutlives(rows: map<nat, Row>, marker: Option<RecentCapture>, now: nat, nextUuid: nat,
                                          uuid: nat)
    requires MarkerValid(rows, marker, now, nextUuid)
    ensures MarkerValid(rows - {uuid}, marker, now, nextUuid) && MarkerValid(rows - {uuid}, None, now, nextUuid)
  {
  }

  lemma {:induction false} FewerJobs(rows: map<nat, Row>, clears: seq<ClearRecord>, now: nat, nextUuid: nat,
                                     jobs: map<nat, Job>, clear: nat)
    requires JobsValid(rows, clears, now, nextUuid, jobs)
    ensures JobsValid(rows, clears, now, nextUuid, jobs - {clear})
  {
    hide Pending;
  }

  lemma {:induction false} DeleteIsRight(rows: map<nat, Row>, clears: seq<ClearRecord>, now: nat, nextUuid: nat,
                                         jobs: map<nat, Job>, forgotten: map<nat, Deletion>, clear: nat)
    requires JobsValid(rows, clears, now, nextUuid, jobs) && LogValid(clears, forgotten, jobs) && clear in jobs
    requires jobs[clear].capture.uuid in rows && !rows[jobs[clear].capture.uuid].pinned
    ensures var d := Deletion(jobs[clear].capture.uuid, rows[jobs[clear].capture.uuid]);
            LogValid(clears, forgotten[clear := d], jobs - {clear})
  {
    hide LeftOrRecopied, ShouldForgetRecentCapture;
  }

  lemma {:induction false} DeleteKeepsBooks(rows: map<nat, Row>, marker: Option<RecentCapture>, clears: seq<ClearRecord>,
                                            now: nat, nextUuid: nat, jobs: map<nat, Job>, forgotten: map<nat, Deletion>,
                                            clear: nat)
    requires RowsValid(rows, now, nextUuid) && MarkerValid(rows, marker, now, nextUuid)
    requires JobsValid(rows, clears, now, nextUuid, jobs) && LogValid(clears, forgotten, jobs) && clear in jobs
    requires jobs[clear].capture.uuid in rows && !rows[jobs[clear].capture.uuid].pinned
    ensures var uuid := jobs[clear].capture.uuid;
            && RowsValid(rows - {uuid}, now, nextUuid) && JobsValid(rows - {uuid}, clears, now, nextUuid, jobs - {clear})
            && MarkerValid(rows - {uuid}, marker, now, nextUuid) && MarkerValid(rows - {uuid}, None, now, nextUuid)
            && LogValid(clears, forgotten[clear := Deletion(uuid, rows[uuid])], jobs - {clear})
  {
    hide RowsValid, JobsValid, LogValid, MarkerValid, UserMay;
    var uuid := jobs[clear].capture.uuid;
    FewerAreAllowed(rows, now, nextUuid, uuid);
    MarkerOutlives(rows, marker, now, nextUuid, uuid);
    DeleteIsRight(rows, clears, now, nextUuid, jobs, forgotten, clear);
    FewerRowsKeepJobs(rows, rows - {uuid}, clears, now, nextUuid, jobs);
    FewerJobs(rows - {uuid}, clears, now, nextUuid, jobs, clear);
  }

  predicate Names(marker: Option<RecentCapture>, uuid: nat) { marker.Some? && marker.value.uuid == uuid }

  function OutcomeOf(rows: map<nat, Row>, uuid: nat, enabled: bool, faults: Faults, wish: map<nat, Row>,
                     later: map<nat, Row>): Outcome
  {
    var seen := Meddled(rows, wish);
    if enabled then Attempted(uuid, seen, Meddled(seen, later), faults) else LeftAlone
  }

  lemma {:induction false} FewerAreAllowed(rows: map<nat, Row>, now: nat, nextUuid: nat, uuid: nat)
    requires RowsValid(rows, now, nextUuid)
    ensures UserMay(rows, rows - {uuid})
  {
  }

  class ClipHistory {
    var rows: map<nat, Row>
    var marker: Option<RecentCapture>
    /** The content of the last stored copy, for consecutive duplicates. */
    var lastStable: Option<nat>
    /** Attempts still to come, by the clear they belong to. The consumer works
        on the newest clear's first attempt; the others are sleeping retries. */
    var jobs: map<nat, Job>
    var working: bool
    var now: nat
    var nextUuid: nat
    var clears: seq<ClearRecord>
    /** What each clear removed. */
    ghost var forgotten: map<nat, Deletion>

    constructor ()
      ensures Valid() && rows == map[] && marker.None? && !working && jobs == map[] && clears == [] && forgotten == map[]
      ensures now == 0 && nextUuid == 0 && lastStable.None?
    {
      lastStable := None;
      rows, marker, jobs, working, now, nextUuid, clears, forgotten := map[], None, map[], false, 0, 0, [], map[];
    }

    ghost predicate Valid()
      reads this
    {
      && RowsValid(rows, now, nextUuid)
      && MarkerValid(rows, marker, now, nextUuid)
      && JobsValid(rows, clears, now, nextUuid, jobs)
      && LogValid(clears, forgotten, jobs)
      && (working ==> |clears| > 0 && |clears| - 1 in jobs && marker.None?)
      && (working ==> MarkerValid(rows, Some(jobs[|clears| - 1].capture), now, nextUuid))
    }

    method Tick(ms: nat)
      requires Valid()
      modifies this`now
      ensures Valid() && now == old(now) + ms
    {
      hide TargetOf, LogValid, LeftOrRecopied;
      now := now + ms;
    }

    method UserCommands(wish: map<nat, Row>)
      requires Valid()
      modifies this`rows, this`lastStable
      ensures Valid() && rows == Meddled(old(rows), wish)
      ensures lastStable == if ResetsDedup(old(rows), rows) then None else old(lastStable)
    {
      hide JobsValid, LogValid, RowsValid;
      if UserMay(rows, wish) {
        FewerRowsKeepJobs(rows, wish, clears, now, nextUuid, jobs);
        if ResetsDedup(rows, wish) {
          lastStable := None;
        }
        rows := wish;
      }
    }

    /** One snapshot. Accepting content already in history reuses its row; text
        like the last stored copy changes nothing, not even the clear target. */
    method ProcessSnapshot(copy: Copy, gate: Gate, stored: StoredOriginal, storing: Storing)
      returns (fate: SnapshotFate, uuid: Option<nat>)
      requires Valid() && !working
      modifies this
      ensures Valid() && !working && jobs == old(jobs) && clears == old(clears) && forgotten == old(forgotten)
      ensures fate == FateOf(old(lastStable), copy, gate, stored, storing)
      ensures fate.Skipped? || fate.Failed? ==> marker.None?
      ensures fate.Skipped? || (fate.Failed? && !fate.wroteRow) ==> rows == old(rows)
      ensures fate.Ignored? || fate.ConsecutiveDuplicate? ==> marker == old(marker) && rows == old(rows)
      ensures uuid.Some? <==> fate.Accepted? || (fate.Failed? && fate.wroteRow)
      ensures now == old(now) + (if uuid.Some? then 1 else 0)
      ensures uuid.Some? ==> AcceptedAs(old(rows), copy.hash, uuid.value)
      ensures fate.Accepted? ==> marker == Some(RecentCapture(uuid.value, now, copy.credentialShaped && !copy.image))
      ensures lastStable == if fate.Accepted? then Some(copy.hash) else old(lastStable)
    {
      hide JobsValid, LogValid, RowsValid, MarkerValid;
      fate, uuid := FateOf(lastStable, copy, gate, stored, storing), None;
      if fate.Ignored? || fate.ConsecutiveDuplicate? {
        return;
      }
      DropMarker();
      if fate.Skipped? || (fate.Failed? && !fate.wroteRow) {
        return;
      }
      // The row may be written and a later step still fail: no target then.
      var written := AcceptCopy(copy.hash, fate.Accepted? && copy.credentialShaped && !copy.image);
      uuid := Some(written);
      if fate.Failed? {
        DropMarker();
      } else {
        RememberStable(copy.hash);
      }
    }

    method RememberStable(hash: nat)
      requires Valid()
      modifies this`lastStable
      ensures Valid() && lastStable == Some(hash)
    {
      hide JobsValid, LogValid, RowsValid, MarkerValid;
      lastStable := Some(hash);
    }

    method DropMarker()
      requires Valid() && !working
      modifies this`marker
      ensures Valid() && marker.None?
    {
      hide JobsValid, LogValid, RowsValid;
      marker := None;
    }

    method AcceptCopy(hash: nat, credentialLike: bool) returns (uuid: nat)
      requires Valid() && !working
      modifies this
      ensures Valid() && !working && jobs == old(jobs) && clears == old(clears) && forgotten == old(forgotten)
      ensures now == old(now) + 1 && AcceptedAs(old(rows), hash, uuid) && lastStable == old(lastStable)
      ensures marker == Some(RecentCapture(uuid, now, credentialLike))
    {
      hide JobsValid, LogValid, RowsValid;
      var row := Row(hash, false, false, now + 1);
      if u :| u in rows && rows[u].hash == hash {
        uuid, row := u, row.(pinned := rows[u].pinned);
        OneRowPerContent(rows, now, nextUuid, u);
      } else {
        uuid := nextUuid;
        FreshUuid(rows, now, nextUuid);
      }
      CopyKeepsJobs(rows, uuid, row, clears, now, nextUuid, jobs);
      CopyKeepsRows(rows, uuid, row, now, nextUuid);
      rows, now := rows[uuid := row], now + 1;
      if nextUuid <= uuid {
        nextUuid := uuid + 1;
      }
      marker := Some(RecentCapture(uuid, now, credentialLike));
    }

    /** The one row of this content is live and just copied; the rest is as it was. */
    ghost predicate AcceptedAs(before: map<nat, Row>, hash: nat, uuid: nat)
      reads this
    {
      && uuid in rows && rows[uuid].hash == hash && rows[uuid].copiedAt == now && !rows[uuid].deleted
      && (uuid in before ==> before[uuid].hash == hash && rows[uuid].pinned == before[uuid].pinned)
      && (uuid !in before ==> !rows[uuid].pinned && forall u | u in before :: before[u].hash != hash)
      && rows - {uuid} == before - {uuid}
    }

    /** A clear's first attempt up to its lookup. In the window or not, the
        marker is used up; only an in-window credential becomes a target. */
    method BeginClear(enabled: bool)
      requires Valid() && !working
      modifies this
      ensures Valid() && rows == old(rows) && forgotten == old(forgotten) && now == old(now) && lastStable == old(lastStable)
      ensures !enabled ==> marker == old(marker) && clears == old(clears) && jobs == old(jobs) && !working
      ensures enabled ==> marker.None? && clears == old(clears) + [ClearRecord(now, old(marker))]
      ensures enabled ==> working == ForgettableNow(old(marker), now)
      ensures enabled ==> jobs == if working then old(jobs)[|clears| - 1 := Job(FORGET_ON_CLEAR_ATTEMPTS, old(marker).value)]
                                  else old(jobs)
    {
      hide RowsValid, JobsValid, LogValid, ForgettableNow;
      if !enabled {
        return;
      }
      var recent := marker;
      marker := None;
      ClearKeepsJobs(rows, clears, now, nextUuid, jobs, forgotten, ClearRecord(now, recent));
      clears := clears + [ClearRecord(now, recent)];
      if ForgettableNow(recent, now) {
        SomeIsForgettable(recent, now);
        TargetBecomesJob(rows, clears, now, nextUuid, jobs, forgotten, recent.value);
        jobs, working := jobs[|clears| - 1 := Job(FORGET_ON_CLEAR_ATTEMPTS, recent.value)], true;
      }
    }

    /** One attempt at a clear's target, from its lookup to its commit. Users
        act before the lookup and again before the guarded delete. A failed
        first attempt puts the marker back for a later clear. */
    method RunAttempt(clear: nat, enabled: bool, faults: Faults, wish: map<nat, Row>, later: map<nat, Row>)
      returns (outcome: Outcome)
      requires Valid() && clear in jobs
      modifies this
      ensures Valid() && clears == old(clears) && now == old(now) && nextUuid == old(nextUuid)
      ensures outcome == OutcomeOf(old(rows), old(jobs)[clear].capture.uuid, enabled, faults, wish, later)
      ensures outcome.Forgot? ==>
        Removed(Meddled(old(rows), wish), old(marker), old(forgotten), clear, old(jobs)[clear].capture.uuid, later)
      ensures !outcome.Forgot? ==> forgotten == old(forgotten)
      ensures outcome.Forgot? || rows == old(rows) || rows == Meddled(old(rows), wish)
              || rows == Meddled(Meddled(old(rows), wish), later)
      ensures outcome.Forgot? || lastStable.None? || lastStable == old(lastStable)
      ensures SettledAs(old(jobs), old(working), clear, outcome)
    {
      hide RowsValid, JobsValid, LogValid, MarkerValid, Attempted, Meddled, Removed;
      if !enabled {
        DropJob(clear);
        return LeftAlone;
      }
      UserCommands(wish);
      outcome := Attempt(clear, faults, later);
    }

    method Attempt(clear: nat, faults: Faults, later: map<nat, Row>) returns (outcome: Outcome)
      requires Valid() && clear in jobs
      modifies this
      ensures Valid() && clears == old(clears) && now == old(now) && nextUuid == old(nextUuid)
      ensures outcome == Attempted(old(jobs)[clear].capture.uuid, old(rows), Meddled(old(rows), later), faults)
      ensures outcome.Forgot? ==> Removed(old(rows), old(marker), old(forgotten), clear, old(jobs)[clear].capture.uuid, later)
      ensures !outcome.Forgot? ==> forgotten == old(forgotten) && (rows == old(rows) || rows == Meddled(old(rows), later))
      ensures outcome.Forgot? || lastStable.None? || lastStable == old(lastStable)
      ensures SettledAs(old(jobs), old(working), clear, outcome)
    {
      hide RowsValid, JobsValid, LogValid, MarkerValid, GuardedDelete, Meddled, Removed, ResetsDedup;
      var uuid := jobs[clear].capture.uuid;
      var tookMarker := working && clear == |clears| - 1;
      if faults.lookup {
        Requeue(clear, tookMarker);
        return Requeued;
      }
      if uuid !in rows || rows[uuid].pinned || rows[uuid].deleted {
        DropJob(clear);
        return LeftAlone;
      }
      outcome := DeleteUnpinned(clear, tookMarker, faults, later);
    }

    /** The attempt's transaction, whose delete checks the pin once more. */
    method DeleteUnpinned(clear: nat, tookMarker: bool, faults: Faults, later: map<nat, Row>) returns (outcome: Outcome)
      requires Valid() && clear in jobs && tookMarker == (working && clear == |clears| - 1)
      modifies this
      ensures Valid() && clears == old(clears) && now == old(now) && nextUuid == old(nextUuid)
      ensures outcome == GuardedDelete(old(jobs)[clear].capture.uuid, Meddled(old(rows), later), faults)
      ensures outcome.Forgot? ==> Removed(old(rows), old(marker), old(forgotten), clear, old(jobs)[clear].capture.uuid, later)
      ensures !outcome.Forgot? ==> forgotten == old(forgotten) && (rows == old(rows) || rows == Meddled(old(rows), later))
      ensures outcome.Forgot? || lastStable.None? || lastStable == old(lastStable)
      ensures SettledAs(old(jobs), old(working), clear, outcome)
    {
      hide RowsValid, JobsValid, LogValid, MarkerValid, Meddled, ResetsDedup;
      var uuid := jobs[clear].capture.uuid;
      if faults.begin {
        Requeue(clear, tookMarker);
        return Requeued;
      }
      UserCommands(later);
      if faults.delete {
        Requeue(clear, tookMarker);
        return Requeued;
      }
      if uuid !in rows || rows[uuid].pinned {
        DropJob(clear);
        return LeftAlone;
      }
      if faults.commit {
        Requeue(clear, tookMarker);
        return Requeued;
      }
      CommitDelete(clear);
      outcome := Forgot;
    }

    /** A failed attempt with tries left sleeps again; any other is over. */
    ghost predicate SettledAs(was: map<nat, Job>, wasWorking: bool, clear: nat, outcome: Outcome)
      requires clear in was
      reads this
    {
      && jobs - {clear} == was - {clear} && working == (wasWorking && clear != |clears| - 1)
      && (clear in jobs <==> outcome.Requeued? && was[clear].attemptsLeft > 1)
      && (clear in jobs ==> jobs[clear] == Job(was[clear].attemptsLeft - 1, was[clear].capture))
    }

    /** The clear is done with its target. */
    method DropJob(clear: nat)
      requires Valid() && clear in jobs
      modifies this`jobs, this`working
      ensures Valid() && jobs == old(jobs) - {clear} && working == (old(working) && clear != |clears| - 1)
    {
      hide RowsValid, MarkerValid, Pending, ForgottenRight;
      jobs, working := jobs - {clear}, working && clear != |clears| - 1;
    }

    method Requeue(clear: nat, tookMarker: bool)
      requires Valid() && clear in jobs && tookMarker == (working && clear == |clears| - 1)
      modifies this`jobs, this`working, this`marker
      ensures Valid() && jobs - {clear} == old(jobs) - {clear}
      ensures working == (old(working) && clear != |clears| - 1)
      ensures clear in jobs <==> old(jobs)[clear].attemptsLeft > 1
      ensures clear in jobs ==> jobs[clear] == Job(old(jobs)[clear].attemptsLeft - 1, old(jobs)[clear].capture)
      ensures marker == if tookMarker then Some(old(jobs)[clear].capture) else old(marker)
    {
      hide RowsValid, MarkerValid, Pending, ForgottenRight;
      var job := jobs[clear];
      DropJob(clear);
      if tookMarker && marker.None? {
        marker := Some(job.capture);
      }
      var remaining := NextForgetAttempts(job.attemptsLeft);
      if remaining.Some? {
        jobs := jobs[clear := Job(remaining.value, job.capture)];
      }
    }

    method CommitDelete(clear: nat)
      requires Valid() && clear in jobs && jobs[clear].capture.uuid in rows && !rows[jobs[clear].capture.uuid].pinned
      modifies this
      ensures Valid() && clears == old(clears) && now == old(now) && nextUuid == old(nextUuid)
      ensures working == (old(working) && clear != |clears| - 1)
      ensures rows == old(rows) - {old(jobs)[clear].capture.uuid} && jobs == old(jobs) - {clear}
      ensures forgotten == old(forgotten)[clear := Deletion(old(jobs)[clear].capture.uuid, old(rows)[old(jobs)[clear].capture.uuid])]
      ensures marker == if Names(old(marker), old(jobs)[clear].capture.uuid) then None else old(marker)
      ensures lastStable.None?
    {
      hide RowsValid, JobsValid, LogValid, MarkerValid;
      var uuid := jobs[clear].capture.uuid;
      ghost var d := Deletion(uuid, rows[uuid]);
      DeleteKeepsBooks(rows, marker, clears, now, nextUuid, jobs, forgotten, clear);
      if working && clear != |clears| - 1 {
        MarkerOutlives(rows, Some(jobs[|clears| - 1].capture), now, nextUuid, uuid);
      }
      working := working && clear != |clears| - 1;
      rows, jobs, forgotten, lastStable := rows - {uuid}, jobs - {clear}, forgotten[clear := d], None;
      if Names(marker, uuid) {
        marker := None;
      }
    }

    /** What a successful attempt leaves behind. */
    ghost predicate Removed(before: map<nat, Row>, was: Option<RecentCapture>, log: map<nat, Deletion>, clear: nat,
                            uuid: nat, later: map<nat, Row>)
      reads this
    {
      var present := Meddled(before, later);
      && uuid in present && rows == present - {uuid}
      && forgotten == log[clear := Deletion(uuid, present[uuid])]
      && marker == (if Names(was, uuid) then None else was)
      && lastStable.None?
    }

    /** Before a retry runs, comparing the row's last copy with the capture it
        carries tells exactly whether it would remove a copy made after the
        clear: the same content, copied again, lives in the same row. */
    lemma {:induction false} HitsLaterCopyIffRecopied(clear: nat)
      requires Valid() && clear in jobs && jobs[clear].capture.uuid in rows
      ensures clear < |clears| && var row, capture := rows[jobs[clear].capture.uuid], jobs[clear].capture;
              (clears[clear].at < row.copiedAt <==> row.copiedAt != capture.capturedAt)
    {
      hide LogValid, RowsValid, MarkerValid;
      assert Pending(rows, clears, now, nextUuid, clear, jobs[clear].capture);
    }

    /** A first attempt never does. */
    lemma {:induction false} FirstAttemptHitsNoLaterCopy()
      requires Valid() && working && jobs[|clears| - 1].capture.uuid in rows
      ensures rows[jobs[|clears| - 1].capture.uuid].copiedAt <= clears[|clears| - 1].at
    {
      hide LogValid, RowsValid;
      assert Pending(rows, clears, now, nextUuid, |clears| - 1, jobs[|clears| - 1].capture);
    }

    /** Every deletion on record removed the credential its clear had taken. */
    lemma {:induction false} ForgetsOnlyItsTarget(clear: nat)
      requires Valid() && clear in forgotten
      ensures clear < |clears| && clears[clear].taken.Some?
      ensures var target := clears[clear].taken.value;
              && forgotten[clear].uuid == target.uuid && target.credentialLike && !forgotten[clear].row.pinned
              && clears[clear].at <= target.capturedAt + FORGET_WINDOW_MS
      ensures clears[clear].at < forgotten[clear].row.copiedAt
         <==> forgotten[clear].row.copiedAt != clears[clear].taken.value.capturedAt
    {
      hide JobsValid, RowsValid, MarkerValid;
      assert ForgottenRight(clears, clear, forgotten[clear]);
    }
  }

  /** Any run: captures, clears, attempts and users in any order, any failure
      anywhere. Each clear removes at most one clip, and only its target. */
  method AnyRun(history: ClipHistory, steps: nat)
    requires history.Valid()
    modifies history
    ensures history.Valid()
  {
    hide RowsValid, JobsValid, LogValid, MarkerValid;
    for step := 0 to steps
      invariant history.Valid()
    {
      var choice: nat := *;
      if choice == 0 && !history.working {
        var copy: Copy, gate: Gate, stored: StoredOriginal, storing: Storing := *, *, *, *;
        var fate, uuid := history.ProcessSnapshot(copy, gate, stored, storing);
      } else if choice == 1 && !history.working {
        var enabled: bool := *;
        history.BeginClear(enabled);
      } else if choice == 2 {
        var ms: nat := *;
        history.Tick(ms);
      } else if choice == 3 {
        var wish: map<nat, Row> := *;
        history.UserCommands(wish);
      } else if choice in history.jobs {
        var enabled: bool, faults: Faults, wish: map<nat, Row>, later: map<nat, Row> := *, *, *, *;
        var outcome := history.RunAttempt(choice, enabled, faults, wish, later);
      }
    }
  }

  /** A run in which a clear removes a later copy: the lookup fails, something
      else is copied, then the same password again, and the retry removes it.
      Copied again at once, it would have been dropped as a duplicate. */
  method RecopiedPasswordIsForgotten(password: nat, note: nat) returns (history: ClipHistory)
    requires password != note
    ensures history.Valid() && 0 in history.forgotten && |history.clears| == 1
    ensures history.clears[0].at < history.forgotten[0].row.copiedAt
  {
    hide RowsValid, JobsValid, LogValid, MarkerValid, UserMay;
    history := new ClipHistory();
    var fate, first := history.ProcessSnapshot(Copy(password, false, true), Pass, Missing, Stored);
    history.BeginClear(true);
    assert ForgettableNow(history.clears[0].taken, history.now);
    var outcome := history.RunAttempt(0, true, Faults(true, false, false, false), history.rows, history.rows);
    assert 0 in history.jobs;
    OnlyRow(history.rows, first.value);
    ghost var before := history.rows;
    var other;
    fate, other := history.ProcessSnapshot(Copy(note, false, false), Pass, Missing, Stored);
    assert fate.Accepted?;
    assert other != first && first.value in before - {other.value};
    assert first.value in history.rows && history.rows[first.value] == before[first.value];
    ghost var two := history.rows;
    var again;
    fate, again := history.ProcessSnapshot(Copy(password, false, true), Pass, Missing, Stored);
    assert fate.Accepted?;
    assert again == first by {
      assert again.value in two;
      assert again.value != other.value;
      assert again.value in two - {other.value};
    }
    outcome := history.RunAttempt(0, true, Faults(false, false, false, false), history.rows, history.rows);
  }

  lemma {:induction false} OnlyRow(rows: map<nat, Row>, uuid: nat)
    requires uuid in rows && rows - {uuid} == map[]
    ensures forall u | u in rows :: u == uuid
  {
    assert forall u | u in rows && u != uuid :: u in rows - {uuid};
  }
}
