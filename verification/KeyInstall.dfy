/** First run: any number of processes race to install one storage key in a
    shared directory, each step of each interleaved with all the others. */
module KeyInstall {
  import opened Wrappers

  type Key = nat

  datatype Installation = Installed | AlreadyPresent | InstallFailed

  /** Where a process is. It carries the key it generated until it has decided
      whose key is stored. */
  datatype Pc =
    | Looking
    | Generated(key: Key)
    | WriteFailed
    | Linking(key: Key)
    | LinkFailed(key: Key, unsupported: bool)
    | Renaming(key: Key)
    | RenameFailed(key: Key)
    | Cleaning(key: Key, outcome: Installation)
    | Loading
    | Holds(key: Key)
    | Failed

  /** The shared directory, everybody's program counter, and who could not
      remove its temporary file on the way out. */
  datatype State = State(keyFile: Option<Key>, temps: map<nat, Key>, procs: map<nat, Pc>, stuck: set<nat>)

  /** Process `p` moves to `pc`, leaving these files; nobody else moves. */
  predicate Moves(s: State, p: nat, t: State, pc: Pc, keyFile: Option<Key>, temps: map<nat, Key>) {
    t == State(keyFile, temps, s.procs[p := pc], s.stuck)
  }

  predicate Stays(s: State, p: nat, t: State, pc: Pc) { Moves(s, p, t, pc, s.keyFile, s.temps) }

  /** Link or rename the temporary file to the key file: it never replaces one. */
  predicate Publishes(s: State, p: nat, t: State, pc: Pc, keepsTemp: bool)
  {
    && s.keyFile.None? && p in s.temps
    && Moves(s, p, t, pc, Some(s.temps[p]), if keepsTemp then s.temps else s.temps - {p})
  }

  predicate Looks(s: State, p: nat, t: State, allowCreate: bool, calm: bool) {
    || (s.keyFile.Some? && Stays(s, p, t, Loading))
    || (s.keyFile.None? && allowCreate && t.procs.Keys == s.procs.Keys && p in t.procs && t.procs[p].Generated?
        && Stays(s, p, t, t.procs[p]))
    || (s.keyFile.None? && !allowCreate && Stays(s, p, t, Failed))
    || (!calm && Stays(s, p, t, Failed))
  }

  /** The write failed and left nothing, or any part, under the temporary name. */
  predicate LeavesPart(s: State, p: nat, t: State) {
    && t.keyFile == s.keyFile && t.procs == s.procs[p := WriteFailed] && t.stuck == s.stuck
    && t.temps - {p} == s.temps - {p} && t.temps.Keys <= s.temps.Keys + {p}
  }

  /** The temporary file is written; whether the volume has hard links is then
      known, or not, and decides how to publish it. */
  predicate Writes(s: State, p: nat, t: State, key: Key, calm: bool) {
    || Moves(s, p, t, Linking(key), s.keyFile, s.temps[p := key])
    || Moves(s, p, t, Renaming(key), s.keyFile, s.temps[p := key])
    || (!calm && LeavesPart(s, p, t))
  }

  /** A link may fail for any reason, even one reported after it was made; on a
      volume without hard links it can only fail. */
  predicate Links(s: State, p: nat, t: State, key: Key, calm: bool) {
    || Publishes(s, p, t, Cleaning(key, Installed), true)
    || Stays(s, p, t, LinkFailed(key, true))
    || ((s.keyFile.Some? || !calm) && Stays(s, p, t, LinkFailed(key, false)))
    || (!calm && (Publishes(s, p, t, LinkFailed(key, false), true) || Publishes(s, p, t, LinkFailed(key, true), true)))
  }

  predicate ChecksAfterLink(s: State, p: nat, t: State, key: Key, unsupported: bool, calm: bool) {
    || (!calm && Stays(s, p, t, Cleaning(key, InstallFailed)))
    || (s.keyFile.Some? && Stays(s, p, t, Cleaning(key, AlreadyPresent)))
    || (s.keyFile.None? && Stays(s, p, t, if unsupported then Renaming(key) else Cleaning(key, InstallFailed)))
  }

  predicate Renames(s: State, p: nat, t: State, key: Key, calm: bool) {
    || Publishes(s, p, t, Cleaning(key, Installed), false)
    || ((s.keyFile.Some? || !calm) && Stays(s, p, t, RenameFailed(key)))
    || (!calm && Publishes(s, p, t, RenameFailed(key), false))
  }

  predicate ChecksAfterRename(s: State, p: nat, t: State, key: Key, calm: bool) {
    || (!calm && Stays(s, p, t, Cleaning(key, InstallFailed)))
    || (s.keyFile.Some? && Stays(s, p, t, Cleaning(key, AlreadyPresent)))
    || (s.keyFile.None? && Stays(s, p, t, Cleaning(key, InstallFailed)))
  }

  /** The one cleanup every exit of the install goes through. It may fail, and
      then nobody hears of it. */
  predicate Cleans(s: State, p: nat, t: State, key: Key, outcome: Installation) {
    var pc := match outcome { case Installed => Holds(key) case AlreadyPresent => Loading case InstallFailed => Failed };
    || Moves(s, p, t, pc, s.keyFile, s.temps - {p})
    || (p in s.temps && t == State(s.keyFile, s.temps, s.procs[p := pc], s.stuck + {p}))
  }

  predicate Loads(s: State, p: nat, t: State, calm: bool) {
    || (s.keyFile.Some? && Stays(s, p, t, Holds(s.keyFile.value)))
    || ((s.keyFile.None? || !calm) && Stays(s, p, t, Failed))
  }

  /** One step of process `p`. In a `calm` step nothing fails for no reason. */
  predicate Step(s: State, p: nat, t: State, allowCreate: bool, calm: bool) {
    p in s.procs &&
    match s.procs[p]
    case Looking => Looks(s, p, t, allowCreate, calm)
    case Generated(key) => Writes(s, p, t, key, calm)
    case Linking(key) => Links(s, p, t, key, calm)
    case LinkFailed(key, unsupported) => ChecksAfterLink(s, p, t, key, unsupported, calm)
    case Renaming(key) => Renames(s, p, t, key, calm)
    case RenameFailed(key) => ChecksAfterRename(s, p, t, key, calm)
    case Cleaning(key, outcome) => Cleans(s, p, t, key, outcome)
    case Loading => Loads(s, p, t, calm)
    case WriteFailed => false
    case Holds(_) => false
    case Failed => false
  }

  predicate Initial(s: State) {
    s.temps == map[] && s.stuck == {} && forall p | p in s.procs :: s.procs[p] == Looking
  }

  /** Any schedule: who moved at each step is in `who`. */
  ghost predicate Run(states: seq<State>, who: seq<nat>, allowCreate: bool) {
    && |states| == |who| + 1 && Initial(states[0])
    && forall i | 0 <= i < |who| :: Step(states[i], who[i], states[i + 1], allowCreate, false)
  }

  // -------------------------------------------------------------- what is kept

  /** What holds of one process, given the files. */
  predicate Sound(s: State, p: nat)
    requires p in s.procs
  {
    match s.procs[p]
    case Looking => p !in s.temps && p !in s.stuck
    case Generated(_) => p !in s.temps && p !in s.stuck
    case WriteFailed => p !in s.stuck
    case Linking(key) => p in s.temps && s.temps[p] == key && p !in s.stuck
    case LinkFailed(key, _) => p in s.temps && s.temps[p] == key && p !in s.stuck
    case Renaming(key) => p in s.temps && s.temps[p] == key && p !in s.stuck
    case RenameFailed(_) => p !in s.stuck
    case Cleaning(key, Installed) => s.keyFile == Some(key) && p !in s.stuck
    case Cleaning(_, AlreadyPresent) => s.keyFile.Some? && p !in s.stuck
    case Cleaning(_, InstallFailed) => p !in s.stuck
    case Loading => s.keyFile.Some? && LeftBehind(s, p)
    case Holds(key) => s.keyFile == Some(key) && LeftBehind(s, p)
    case Failed => LeftBehind(s, p)
  }

  /** The process has a temporary file exactly if it could not remove it. */
  predicate LeftBehind(s: State, p: nat) { p in s.temps <==> p in s.stuck }

  ghost predicate Safe(s: State) {
    (forall p | p in s.procs :: Sound(s, p)) && s.temps.Keys <= s.procs.Keys
  }

  /** A step changes the key file only from absent to some process's own
      complete key, and touches no other process's temporary file. */
  lemma {:induction false} StepKeepsFiles(s: State, p: nat, t: State, allowCreate: bool, calm: bool)
    requires Step(s, p, t, allowCreate, calm)
    ensures t.keyFile == s.keyFile || (s.keyFile.None? && p in s.temps && t.keyFile == Some(s.temps[p]))
    ensures t.procs.Keys == s.procs.Keys && t.procs - {p} == s.procs - {p} && t.temps - {p} == s.temps - {p}
    ensures t.temps.Keys <= s.temps.Keys + {p} && t.stuck - {p} == s.stuck - {p}
  {
  }

  lemma {:induction false} StepIsSound(s: State, p: nat, t: State, allowCreate: bool, calm: bool)
    requires Step(s, p, t, allowCreate, calm) && Sound(s, p)
    ensures p in t.procs && Sound(t, p)
  {
  }

  lemma {:induction false} StepIsSafe(s: State, p: nat, t: State, allowCreate: bool, calm: bool)
    requires Safe(s) && Step(s, p, t, allowCreate, calm)
    ensures Safe(t)
  {
    StepKeepsFiles(s, p, t, allowCreate, calm);
    StepIsSound(s, p, t, allowCreate, calm);
    hide Step;
    forall q | q in t.procs
      ensures Sound(t, q)
    {
      if q != p {
        OthersStaySound(s, p, t, q);
      }
    }
  }

  lemma {:induction false} OthersStaySound(s: State, p: nat, t: State, q: nat)
    requires q != p && q in s.procs && Sound(s, q) && t.procs.Keys == s.procs.Keys
    requires t.procs - {p} == s.procs - {p} && t.temps - {p} == s.temps - {p} && t.stuck - {p} == s.stuck - {p}
    requires s.keyFile.Some? ==> t.keyFile == s.keyFile
    ensures Sound(t, q)
  {
    assert q in s.procs - {p} && q in t.procs - {p};
    assert t.procs[q] == (t.procs - {p})[q] == s.procs[q];
    assert q in t.stuck <==> q in t.stuck - {p};
    assert q in s.stuck <==> q in s.stuck - {p};
    assert q in t.temps <==> q in t.temps - {p};
    assert q in s.temps <==> q in s.temps - {p};
    assert q in s.temps ==> (t.temps - {p})[q] == t.temps[q] && (s.temps - {p})[q] == s.temps[q];
  }

  lemma {:induction false} RunIsSafe(states: seq<State>, who: seq<nat>, allowCreate: bool, i: nat)
    requires Run(states, who, allowCreate) && i < |states|
    ensures Safe(states[i])
    decreases i
  {
    hide Step;
    if i > 0 {
      RunIsSafe(states, who, allowCreate, i - 1);
      StepIsSafe(states[i - 1], who[i - 1], states[i], allowCreate, false);
    }
  }

  // ------------------------------------------------------------- main results

  /** Once there is a key file it never changes again. */
  lemma {:induction false} KeyFileIsForever(states: seq<State>, who: seq<nat>, allowCreate: bool, i: nat, j: nat)
    requires Run(states, who, allowCreate) && i <= j < |states| && states[i].keyFile.Some?
    ensures states[j].keyFile == states[i].keyFile
    decreases j - i
  {
    hide Step;
    if i < j {
      StepKeepsFiles(states[i], who[i], states[i + 1], allowCreate, false);
      KeyFileIsForever(states, who, allowCreate, i + 1, j);
    }
  }

  /** At most one step of any run writes it. */
  lemma {:induction false} WrittenAtMostOnce(states: seq<State>, who: seq<nat>, allowCreate: bool, i: nat, j: nat)
    requires Run(states, who, allowCreate) && i < j < |who| && states[i].keyFile != states[i + 1].keyFile
    ensures states[j].keyFile == states[j + 1].keyFile
  {
    hide Step;
    StepKeepsFiles(states[i], who[i], states[i + 1], allowCreate, false);
    KeyFileIsForever(states, who, allowCreate, i + 1, j);
    KeyFileIsForever(states, who, allowCreate, i + 1, j + 1);
  }

  /** Everyone who succeeds, at whatever moment, holds the same key, and it is
      the one on disk from then on. */
  lemma {:induction false} EveryoneAgrees(states: seq<State>, who: seq<nat>, allowCreate: bool, i: nat, p: nat, j: nat, q: nat)
    requires Run(states, who, allowCreate) && i < |states| && j < |states|
    requires p in states[i].procs && states[i].procs[p].Holds? && q in states[j].procs && states[j].procs[q].Holds?
    ensures states[i].procs[p].key == states[j].procs[q].key
    ensures states[|who|].keyFile == Some(states[i].procs[p].key)
  {
    hide Step, Run;
    RunIsSafe(states, who, allowCreate, i);
    RunIsSafe(states, who, allowCreate, j);
    assert Sound(states[i], p) && Sound(states[j], q);
    RunLength(states, who, allowCreate);
    KeyFileIsForever(states, who, allowCreate, i, |who|);
    KeyFileIsForever(states, who, allowCreate, j, |who|);
  }

  lemma {:induction false} RunLength(states: seq<State>, who: seq<nat>, allowCreate: bool)
    requires Run(states, who, allowCreate)
    ensures |states| == |who| + 1
  {
  }

  /** Whoever has left the install step, with a key or without, has a temporary
      file left exactly if its one attempt to remove it failed, and whoever has
      not left yet has made none. */
  lemma {:induction false} ExitsLeaveNoTempIff(states: seq<State>, who: seq<nat>, allowCreate: bool, i: nat, p: nat)
    requires Run(states, who, allowCreate) && i < |states| && p in states[i].procs
    ensures var pc := states[i].procs[p];
            if pc.Holds? || pc.Failed? || pc.Loading? then p in states[i].temps <==> p in states[i].stuck
            else p !in states[i].stuck
  {
    hide Step, Run;
    RunIsSafe(states, who, allowCreate, i);
    assert Sound(states[i], p);
  }

  /** How far a process still is from the end. */
  function Rank(pc: Pc): nat {
    match pc
    case Looking => 8
    case Generated(_) => 7
    case Linking(_) => 6
    case LinkFailed(_, _) => 5
    case Renaming(_) => 4
    case RenameFailed(_) => 3
    case Cleaning(_, _) => 2
    case Loading => 1
    case _ => 0
  }

  /** Nothing has gone wrong for this process so far. */
  predicate OnTrack(s: State, p: nat)
    requires p in s.procs
  {
    match s.procs[p]
    case LinkFailed(_, unsupported) => s.keyFile.Some? || unsupported
    case RenameFailed(_) => s.keyFile.Some?
    case Cleaning(_, outcome) => !outcome.InstallFailed?
    case WriteFailed => false
    case Failed => false
    case _ => true
  }

  /** A process whose own steps do not fail can always move until it holds the
      key, gets closer with every step, and is not stopped by the others. */
  lemma {:induction false} CalmStepsSucceed(s: State, p: nat, t: State)
    requires Safe(s) && Step(s, p, t, true, true) && OnTrack(s, p)
    ensures p in t.procs && OnTrack(t, p) && Rank(t.procs[p]) < Rank(s.procs[p])
    ensures Rank(t.procs[p]) == 0 ==> t.procs[p].Holds?
  {
    assert Sound(s, p);
  }

  lemma {:induction false} CalmStepExists(s: State, p: nat) returns (t: State)
    requires Safe(s) && p in s.procs && OnTrack(s, p) && !s.procs[p].Holds?
    ensures Step(s, p, t, true, true)
  {
    assert Sound(s, p);
    match s.procs[p]
    case Looking =>
      t := State(s.keyFile, s.temps, s.procs[p := if s.keyFile.Some? then Loading else Generated(0)], s.stuck);
    case Generated(key) =>
      t := State(s.keyFile, s.temps[p := key], s.procs[p := Linking(key)], s.stuck);
    case Linking(key) =>
      t := if s.keyFile.Some? then State(s.keyFile, s.temps, s.procs[p := LinkFailed(key, false)], s.stuck)
           else State(Some(s.temps[p]), s.temps, s.procs[p := Cleaning(key, Installed)], s.stuck);
    case LinkFailed(key, _) =>
      t := State(s.keyFile, s.temps, s.procs[p := if s.keyFile.Some? then Cleaning(key, AlreadyPresent) else Renaming(key)], s.stuck);
    case Renaming(key) =>
      t := if s.keyFile.Some? then State(s.keyFile, s.temps, s.procs[p := RenameFailed(key)], s.stuck)
           else State(Some(s.temps[p]), s.temps - {p}, s.procs[p := Cleaning(key, Installed)], s.stuck);
    case RenameFailed(key) =>
      t := State(s.keyFile, s.temps, s.procs[p := Cleaning(key, AlreadyPresent)], s.stuck);
    case Cleaning(key, outcome) =>
      t := State(s.keyFile, s.temps - {p}, s.procs[p := if outcome.Installed? then Holds(key) else Loading], s.stuck);
    case Loading =>
      t := State(s.keyFile, s.temps, s.procs[p := Holds(s.keyFile.value)], s.stuck);
  }

  lemma {:induction false} OthersDoNotDerail(s: State, q: nat, t: State, p: nat, calm: bool, allowCreate: bool)
    requires Step(s, q, t, allowCreate, calm) && p != q && p in s.procs && OnTrack(s, p)
    ensures p in t.procs && t.procs[p] == s.procs[p] && OnTrack(t, p)
  {
    StepKeepsFiles(s, q, t, allowCreate, calm);
    assert p in s.procs - {q} && (t.procs - {q})[p] == t.procs[p];
  }
}
