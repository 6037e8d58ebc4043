/** The hand-off of clipboard reads to a reader thread: a job queue beside a
    wake-up message, a worker that may hang, quit or die, and a caller that
    gives up on it. Callers take turns; workers do not wait for each other. */
module ReaderHandOff {
  import opened Wrappers

  type Job = nat

  datatype CallerPc = Idle | Holding(job: Job) | Posting(job: Job) | Waiting(job: Job)

  datatype WorkerPc = Draining | Running(job: Job) | Blocking | Stopped

  /** `wakes` counts the reader messages in the thread's message queue. */
  datatype Worker = Worker(queue: seq<Job>, wakes: nat, pc: WorkerPc)

  datatype Outcome = Returned(job: Job, value: int) | Unresponsive(job: Job) | CallFailed(job: Job)

  /** The caller holding the lock, the worker in the shared slot, every worker
      ever spawned, each job's own reply channel, and what calls returned. */
  datatype State = State(caller: CallerPc, slot: Option<nat>, workers: map<nat, Worker>, replies: map<Job, int>,
                         nextJob: Job, outcomes: seq<Outcome>)

  function Live(s: State): Worker
    requires s.slot.Some? && s.slot.value in s.workers
  {
    s.workers[s.slot.value]
  }

  // ------------------------------------------------------------------- steps

  predicate Begins(s: State, t: State) {
    s.caller.Idle? && t == s.(caller := Holding(s.nextJob), nextJob := s.nextJob + 1)
  }

  predicate Ends(s: State, t: State, outcome: Outcome, slot: Option<nat>) {
    t == s.(caller := Idle, slot := slot, outcomes := s.outcomes + [outcome])
  }

  /** A worker is started when the slot is empty, and asks for its first job. */
  predicate Spawns(s: State, t: State, w: nat) {
    && s.caller.Holding? && s.slot.None? && w !in s.workers
    && (t == s.(slot := Some(w), workers := s.workers[w := Worker([], 0, Draining)])
        || Ends(s, t, CallFailed(s.caller.job), None))
  }

  predicate Sends(s: State, t: State) {
    && s.caller.Holding? && s.slot.Some? && s.slot.value in s.workers
    && (if Live(s).pc.Stopped? then Ends(s, t, CallFailed(s.caller.job), None)
        else t == s.(caller := Posting(s.caller.job),
                     workers := s.workers[s.slot.value := Live(s).(queue := Live(s).queue + [s.caller.job])]))
  }

  predicate Posts(s: State, t: State) {
    && s.caller.Posting? && s.slot.Some? && s.slot.value in s.workers
    && ((!Live(s).pc.Stopped?
         && t == s.(caller := Waiting(s.caller.job),
                    workers := s.workers[s.slot.value := Live(s).(wakes := Live(s).wakes + 1)]))
        || Ends(s, t, CallFailed(s.caller.job), None))
  }

  predicate Receives(s: State, t: State) {
    && s.caller.Waiting? && s.caller.job in s.replies
    && Ends(s, t, Returned(s.caller.job, s.replies[s.caller.job]), s.slot)
  }

  /** No read finished in time, or the worker is gone: it is abandoned. */
  predicate GivesUp(s: State, t: State) {
    && s.caller.Waiting? && s.caller.job !in s.replies && s.slot.Some? && s.slot.value in s.workers
    && (Ends(s, t, Unresponsive(s.caller.job), None)
        || (Live(s).pc.Stopped? && Ends(s, t, CallFailed(s.caller.job), None)))
  }

  /** `value` is what reading the clipboard for a job yields. */
  predicate Works(s: State, t: State, w: nat, value: Job -> int) {
    w in s.workers &&
    var worker := s.workers[w];
    match worker.pc
    case Draining =>
      if |worker.queue| > 0 then
        t == s.(workers := s.workers[w := worker.(queue := worker.queue[1..], pc := Running(worker.queue[0]))])
      else t == s.(workers := s.workers[w := worker.(pc := if s.slot == Some(w) then Blocking else Stopped)])
    case Running(job) =>
      || t == s.(workers := s.workers[w := worker.(pc := Draining)], replies := s.replies[job := value(job)])
      || t == s.(workers := s.workers[w := worker.(queue := [], pc := Stopped)])
    case Blocking =>
      || (worker.wakes > 0 && t == s.(workers := s.workers[w := worker.(wakes := worker.wakes - 1, pc := Draining)]))
      || t == s.(workers := s.workers[w := worker.(pc := Draining)])
      || t == s.(workers := s.workers[w := worker.(queue := [], pc := Stopped)])
    case Stopped => false
  }

  datatype Move = Begin | Spawn(worker: nat) | Send | Post | Receive | GiveUp | Work(worker: nat)

  predicate Step(s: State, m: Move, t: State, value: Job -> int) {
    match m
    case Begin => Begins(s, t)
    case Spawn(w) => Spawns(s, t, w)
    case Send => Sends(s, t)
    case Post => Posts(s, t)
    case Receive => Receives(s, t)
    case GiveUp => GivesUp(s, t)
    case Work(w) => Works(s, t, w, value)
  }

  const START: State := State(Idle, None, map[], map[], 0, [])

  ghost predicate Run(states: seq<State>, moves: seq<Move>, value: Job -> int) {
    && |states| == |moves| + 1 && states[0] == START
    && forall i | 0 <= i < |moves| :: Step(states[i], moves[i], states[i + 1], value)
  }

  // -------------------------------------------------------------- invariants

  function Held(worker: Worker): seq<Job> {
    (if worker.pc.Running? then [worker.pc.job] else []) + worker.queue
  }

  /** The job of a caller that has handed it over. */
  function Current(caller: CallerPc): Option<Job> {
    match caller
    case Posting(job) => Some(job)
    case Waiting(job) => Some(job)
    case _ => None
  }

  /** The live worker holds the current caller's job, if anything; it has the
      job, has answered it, or is gone; and it never sleeps on a queued job
      unless a wake-up is pending or about to be posted. */
  predicate LiveValid(s: State) {
    s.slot.Some? ==>
      && s.slot.value in s.workers
      && (Held(Live(s)) == [] || (Current(s.caller).Some? && Held(Live(s)) == [Current(s.caller).value]))
      && (Current(s.caller).Some? ==>
            Held(Live(s)) == [Current(s.caller).value] || Current(s.caller).value in s.replies || Live(s).pc.Stopped?)
      && (Held(Live(s)) != [] ==> Current(s.caller).value !in s.replies)
      && (Live(s).pc.Blocking? && |Live(s).queue| > 0 ==> Live(s).wakes > 0 || s.caller.Posting?)
      && (Live(s).pc.Stopped? ==> Live(s).queue == [])
  }

  /** A worker holds at most one job, and never a later caller's. */
  predicate WorkerValid(s: State, w: nat)
    requires w in s.workers
  {
    && |Held(s.workers[w])| <= 1
    && (forall k | 0 <= k < |Held(s.workers[w])| :: Held(s.workers[w])[k] < s.nextJob)
    && (s.caller.Holding? || (!s.caller.Idle? && s.slot != Some(w)) ==> s.caller.job !in Held(s.workers[w]))
  }

  predicate CallerValid(s: State) {
    && (Current(s.caller).Some? ==> s.slot.Some?)
    && (!s.caller.Idle? ==> s.caller.job < s.nextJob)
    && (s.caller.Holding? ==> s.caller.job !in s.replies)
  }

  ghost predicate RepliesValid(s: State, value: Job -> int) {
    forall j | j in s.replies :: j < s.nextJob && s.replies[j] == value(j)
  }

  ghost predicate OutcomesValid(s: State, value: Job -> int) {
    forall k | 0 <= k < |s.outcomes| && s.outcomes[k].Returned? :: s.outcomes[k].value == value(s.outcomes[k].job)
  }

  ghost predicate Valid(s: State, value: Job -> int) {
    && LiveValid(s) && CallerValid(s) && RepliesValid(s, value) && OutcomesValid(s, value)
    && forall w | w in s.workers :: WorkerValid(s, w)
  }

  lemma {:induction false} BeginIsValid(s: State, t: State, value: Job -> int)
    requires Valid(s, value) && Begins(s, t)
    ensures Valid(t, value)
  {
    forall w | w in t.workers
      ensures WorkerValid(t, w)
    {
      assert WorkerValid(s, w);
    }
  }

  lemma {:induction false} EndIsValid(s: State, t: State, outcome: Outcome, slot: Option<nat>, value: Job -> int)
    requires Valid(s, value) && Ends(s, t, outcome, slot)
    requires outcome.Returned? ==> outcome.value == value(outcome.job)
    requires slot.None? || (slot == s.slot && slot.value in s.workers && Held(Live(s)) == [])
    ensures Valid(t, value)
  {
    forall w | w in t.workers
      ensures WorkerValid(t, w)
    {
      assert WorkerValid(s, w);
    }
  }

  lemma {:induction false} SpawnIsValid(s: State, t: State, w: nat, value: Job -> int)
    requires Valid(s, value) && Spawns(s, t, w)
    ensures Valid(t, value)
  {
    if t.caller.Idle? {
      EndIsValid(s, t, CallFailed(s.caller.job), None, value);
    } else {
      forall v | v in t.workers
        ensures WorkerValid(t, v)
      {
        assert v != w ==> WorkerValid(s, v);
      }
    }
  }

  lemma {:induction false} SendIsValid(s: State, t: State, value: Job -> int)
    requires Valid(s, value) && Sends(s, t)
    ensures Valid(t, value)
  {
    if Live(s).pc.Stopped? {
      EndIsValid(s, t, CallFailed(s.caller.job), None, value);
    } else {
      forall v | v in t.workers
        ensures WorkerValid(t, v)
      {
        assert WorkerValid(s, v);
      }
    }
  }

  lemma {:induction false} PostIsValid(s: State, t: State, value: Job -> int)
    requires Valid(s, value) && Posts(s, t)
    ensures Valid(t, value)
  {
    if t.caller.Idle? {
      EndIsValid(s, t, CallFailed(s.caller.job), None, value);
    } else {
      WakeIsValid(s, t, value);
    }
  }

  lemma {:induction false} WakeIsValid(s: State, t: State, value: Job -> int)
    requires Valid(s, value) && Posts(s, t) && !t.caller.Idle?
    ensures Valid(t, value)
  {
    assert Held(Live(t)) == Held(Live(s));
    hide Held;
    forall v | v in t.workers
      ensures WorkerValid(t, v)
    {
      assert WorkerValid(s, v);
    }
  }

  lemma {:induction false} ReceiveIsValid(s: State, t: State, value: Job -> int)
    requires Valid(s, value) && (Receives(s, t) || GivesUp(s, t))
    ensures Valid(t, value)
  {
    if s.caller.job in s.replies {
      EndIsValid(s, t, Returned(s.caller.job, s.replies[s.caller.job]), s.slot, value);
    } else if t.outcomes[|s.outcomes|].Unresponsive? {
      EndIsValid(s, t, Unresponsive(s.caller.job), None, value);
    } else {
      EndIsValid(s, t, CallFailed(s.caller.job), None, value);
    }
  }

  /** A worker's step only ever moves its own job along, or drops it. */
  lemma {:induction false} WorkMovesOwnJob(s: State, t: State, w: nat, value: Job -> int)
    requires Works(s, t, w, value)
    ensures w in s.workers && t.workers.Keys == s.workers.Keys && t.workers == s.workers[w := t.workers[w]]
    ensures t == s.(workers := t.workers, replies := t.replies)
    ensures Held(t.workers[w]) == Held(s.workers[w]) || |Held(t.workers[w])| < |Held(s.workers[w])|
    ensures Held(t.workers[w]) <= Held(s.workers[w]) || |Held(s.workers[w])| > 1
    ensures t.replies == s.replies || (s.workers[w].pc.Running? && t.workers[w].pc.Draining?
            && t.workers[w].queue == s.workers[w].queue && t.replies == s.replies[s.workers[w].pc.job := value(s.workers[w].pc.job)])
  {
  }

  lemma {:induction false} WorkKeepsWorkers(s: State, t: State, w: nat, value: Job -> int)
    requires Works(s, t, w, value) && forall v | v in s.workers :: WorkerValid(s, v)
    ensures forall v | v in t.workers :: WorkerValid(t, v)
  {
    WorkMovesOwnJob(s, t, w, value);
    hide Works, Held;
    forall v | v in t.workers
      ensures WorkerValid(t, v)
    {
      assert WorkerValid(s, v);
    }
  }

  lemma {:induction false} WorkKeepsReplies(s: State, t: State, w: nat, value: Job -> int)
    requires Works(s, t, w, value) && RepliesValid(s, value) && w in s.workers && WorkerValid(s, w)
    ensures RepliesValid(t, value) && (s.caller.Holding? && s.caller.job !in s.replies ==> s.caller.job !in t.replies)
  {
    WorkMovesOwnJob(s, t, w, value);
    hide Works;
    assert s.workers[w].pc.Running? ==> Held(s.workers[w])[0] == s.workers[w].pc.job;
  }

  /** A worker other than the live one changes nothing the live one relies on. */
  lemma {:induction false} OtherWorkKeepsLive(s: State, t: State, w: nat, value: Job -> int)
    requires Works(s, t, w, value) && LiveValid(s) && w in s.workers && WorkerValid(s, w) && s.slot != Some(w)
    ensures LiveValid(t)
  {
    WorkMovesOwnJob(s, t, w, value);
    hide Works;
    assert s.workers[w].pc.Running? ==> Held(s.workers[w])[0] == s.workers[w].pc.job;
    hide Held;
  }

  lemma {:induction false} LiveWorkKeepsLive(s: State, t: State, w: nat, value: Job -> int)
    requires Works(s, t, w, value) && LiveValid(s) && s.slot == Some(w)
    ensures LiveValid(t)
  {
    assert s.workers[w].pc.Running? ==> Held(s.workers[w])[0] == s.workers[w].pc.job;
  }

  lemma {:induction false} WorkIsValid(s: State, t: State, w: nat, value: Job -> int)
    requires Valid(s, value) && Works(s, t, w, value)
    ensures Valid(t, value)
  {
    assert w in s.workers && WorkerValid(s, w);
    WorkMovesOwnJob(s, t, w, value);
    WorkKeepsWorkers(s, t, w, value);
    WorkKeepsReplies(s, t, w, value);
    if s.slot == Some(w) {
      LiveWorkKeepsLive(s, t, w, value);
    } else {
      OtherWorkKeepsLive(s, t, w, value);
    }
    hide Works, LiveValid, WorkerValid, RepliesValid, Held;
  }

  lemma {:induction false} StepIsValid(s: State, m: Move, t: State, value: Job -> int)
    requires Valid(s, value) && Step(s, m, t, value)
    ensures Valid(t, value)
  {
    hide Valid, Begins, Spawns, Sends, Posts, Receives, GivesUp, Works;
    match m
    case Begin => BeginIsValid(s, t, value);
    case Spawn(w) => SpawnIsValid(s, t, w, value);
    case Send => SendIsValid(s, t, value);
    case Post => PostIsValid(s, t, value);
    case Receive => ReceiveIsValid(s, t, value);
    case GiveUp => ReceiveIsValid(s, t, value);
    case Work(w) => WorkIsValid(s, t, w, value);
  }

  lemma {:induction false} RunIsValid(states: seq<State>, moves: seq<Move>, value: Job -> int, i: nat)
    requires Run(states, moves, value) && i < |states|
    ensures Valid(states[i], value)
    decreases i
  {
    hide Step;
    if i > 0 {
      RunIsValid(states, moves, value, i - 1);
      hide Valid;
      StepIsValid(states[i - 1], moves[i - 1], states[i], value);
    }
  }

  // ------------------------------------------------------------ main results

  /** No lost wake-up: whenever the live worker blocks on a nonempty queue, a
      reader message is pending or its sender has yet to post it. */
  lemma {:induction false} NoLostWake(states: seq<State>, moves: seq<Move>, value: Job -> int, i: nat)
    requires Run(states, moves, value) && i < |states|
    requires var s := states[i]; s.slot.Some? && s.slot.value in s.workers && Live(s).pc.Blocking? && |Live(s).queue| > 0
    ensures Live(states[i]).wakes > 0 || states[i].caller.Posting?
  {
    RunIsValid(states, moves, value, i);
    hide Run;
  }

  /** No lost job: what a caller waits for is with its worker or answered, or
      the worker is gone and the caller will be told. */
  lemma {:induction false} NoLostJob(states: seq<State>, moves: seq<Move>, value: Job -> int, i: nat)
    requires Run(states, moves, value) && i < |states| && states[i].caller.Waiting?
    ensures var (s, job) := (states[i], states[i].caller.job);
            s.slot.Some? && s.slot.value in s.workers
            && (Held(Live(s)) == [job] || job in s.replies || Live(s).pc.Stopped?)
  {
    RunIsValid(states, moves, value, i);
    hide Run;
  }

  /** Calls return one at a time and in order, and a value comes from the
      caller's own job. */
  predicate InOrder(s: State) {
    && s.nextJob == |s.outcomes| + (if s.caller.Idle? then 0 else 1)
    && (!s.caller.Idle? ==> s.caller.job == |s.outcomes|)
    && forall k | 0 <= k < |s.outcomes| :: s.outcomes[k].job == k
  }

  lemma {:induction false} StepKeepsOrder(s: State, m: Move, t: State, value: Job -> int)
    requires Step(s, m, t, value) && InOrder(s)
    ensures InOrder(t)
  {
    match m
    case Work(w) =>
      WorkMovesOwnJob(s, t, w, value);
      hide Works;
    case _ =>
  }

  lemma {:induction false} ValuesAreOwn(states: seq<State>, moves: seq<Move>, value: Job -> int, i: nat)
    requires Run(states, moves, value) && i < |states|
    ensures InOrder(states[i])
    ensures forall k | 0 <= k < |states[i].outcomes| && states[i].outcomes[k].Returned? ::
              states[i].outcomes[k] == Returned(k, value(k))
    decreases i
  {
    hide Step;
    RunIsValid(states, moves, value, i);
    if i > 0 {
      ValuesAreOwn(states, moves, value, i - 1);
      StepKeepsOrder(states[i - 1], moves[i - 1], states[i], value);
    }
  }

  predicate SubJobs(a: Worker, b: Worker) { forall k | 0 <= k < |Held(a)| :: Held(a)[k] in Held(b) }

  lemma {:induction false} StepKeepsAbandoned(s: State, m: Move, t: State, value: Job -> int, w: nat)
    requires Step(s, m, t, value) && w in s.workers && s.slot != Some(w) && |Held(s.workers[w])| <= 1
    ensures w in t.workers && t.slot != Some(w) && SubJobs(t.workers[w], s.workers[w])
  {
    match m
    case Work(v) =>
      WorkMovesOwnJob(s, t, v, value);
      hide Works, Held;
      assert t.workers[w] == if w == v then t.workers[v] else s.workers[w];
    case _ =>
      hide Held;
  }

  /** Once abandoned, a worker stays abandoned and never gets another job. */
  lemma {:induction false} AbandonedGetsNoJob(states: seq<State>, moves: seq<Move>, value: Job -> int, i: nat, j: nat, w: nat)
    requires Run(states, moves, value) && i <= j < |states| && w in states[i].workers && states[i].slot != Some(w)
    ensures w in states[j].workers && states[j].slot != Some(w)
    ensures SubJobs(states[j].workers[w], states[i].workers[w])
    decreases j
  {
    hide Step, Held;
    if i < j {
      AbandonedGetsNoJob(states, moves, value, i, j - 1, w);
      RunIsValid(states, moves, value, j - 1);
      assert WorkerValid(states[j - 1], w);
      StepKeepsAbandoned(states[j - 1], moves[j - 1], states[j], value, w);
    }
  }

  /** The caller of this job was told that it failed. */
  predicate GivenUp(s: State, job: Job) {
    job < |s.outcomes| && s.outcomes[job].job == job && !s.outcomes[job].Returned?
  }

  predicate StrayJobsAreGivenUp(s: State, w: nat)
    requires w in s.workers
  {
    s.slot != Some(w) ==> forall k | 0 <= k < |Held(s.workers[w])| :: GivenUp(s, Held(s.workers[w])[k])
  }

  lemma {:induction false} EndGivesUp(s: State, t: State, outcome: Outcome, slot: Option<nat>, w: nat)
    requires Ends(s, t, outcome, slot) && w in s.workers && StrayJobsAreGivenUp(s, w) && InOrder(s)
    requires !s.caller.Idle? && outcome.job == s.caller.job
    requires slot == s.slot || (slot.None? && !outcome.Returned?)
    requires s.slot == Some(w) ==> Held(s.workers[w]) == [] || Held(s.workers[w]) == [s.caller.job]
    ensures w in t.workers && StrayJobsAreGivenUp(t, w)
  {
    hide Held;
  }

  lemma {:induction false} StepGivesUp(s: State, m: Move, t: State, value: Job -> int, w: nat)
    requires Step(s, m, t, value) && LiveValid(s) && CallerValid(s) && InOrder(s)
    requires forall v | v in s.workers :: StrayJobsAreGivenUp(s, v)
    requires w in t.workers && (w in s.workers ==> |Held(s.workers[w])| <= 1)
    ensures StrayJobsAreGivenUp(t, w)
  {
    match m
    case Work(v) =>
      WorkMovesOwnJob(s, t, v, value);
      hide Works, Held, GivenUp;
      assert StrayJobsAreGivenUp(s, w);
    case Receive =>
      EndGivesUp(s, t, Returned(s.caller.job, s.replies[s.caller.job]), s.slot, w);
    case GiveUp =>
      EndGivesUp(s, t, t.outcomes[|s.outcomes|], None, w);
    case _ =>
      CallGivesUp(s, m, t, value, w);
  }

  lemma {:induction false} CallGivesUp(s: State, m: Move, t: State, value: Job -> int, w: nat)
    requires Step(s, m, t, value) && !m.Work? && !m.Receive? && !m.GiveUp? && LiveValid(s) && CallerValid(s) && InOrder(s)
    requires forall v | v in s.workers :: StrayJobsAreGivenUp(s, v)
    requires w in t.workers && (w in s.workers ==> |Held(s.workers[w])| <= 1)
    ensures StrayJobsAreGivenUp(t, w)
  {
    if t.caller.Idle? {
      EndGivesUp(s, t, CallFailed(s.caller.job), None, w);
    } else {
      assert w in s.workers ==> StrayJobsAreGivenUp(s, w);
    }
  }

  /** Reads are serialized but for those whose callers have been told they
      failed: when two workers run jobs at once, one is such a read. */
  lemma {:induction false} OverlapsAreGivenUp(states: seq<State>, moves: seq<Move>, value: Job -> int, i: nat)
    requires Run(states, moves, value) && i < |states|
    ensures forall w | w in states[i].workers :: StrayJobsAreGivenUp(states[i], w)
    decreases i
  {
    hide Step, StrayJobsAreGivenUp;
    if i > 0 {
      OverlapsAreGivenUp(states, moves, value, i - 1);
      RunIsValid(states, moves, value, i - 1);
      ValuesAreOwn(states, moves, value, i - 1);
      forall w | w in states[i].workers
        ensures StrayJobsAreGivenUp(states[i], w)
      {
        assert w in states[i - 1].workers ==> WorkerValid(states[i - 1], w);
        StepGivesUp(states[i - 1], moves[i - 1], states[i], value, w);
      }
    }
  }

  lemma {:induction false} TwoRunningMeansOneGivenUp(states: seq<State>, moves: seq<Move>, value: Job -> int, i: nat,
                                                     w: nat, v: nat)
    requires Run(states, moves, value) && i < |states| && w != v && w in states[i].workers && v in states[i].workers
    requires states[i].workers[w].pc.Running? && states[i].workers[v].pc.Running?
    ensures GivenUp(states[i], states[i].workers[w].pc.job) || GivenUp(states[i], states[i].workers[v].pc.job)
  {
    OverlapsAreGivenUp(states, moves, value, i);
    hide Run, GivenUp;
    var s := states[i];
    assert Held(s.workers[w])[0] == s.workers[w].pc.job && Held(s.workers[v])[0] == s.workers[v].pc.job;
    assert StrayJobsAreGivenUp(s, w) && StrayJobsAreGivenUp(s, v);
  }

  lemma {:induction false} Extend(states: seq<State>, moves: seq<Move>, m: Move, t: State, value: Job -> int)
    requires Run(states, moves, value) && Step(states[|moves|], m, t, value)
    ensures Run(states + [t], moves + [m], value)
  {
    hide Step;
  }

  /** A worker starts the first read and hangs in it until its caller leaves. */
  lemma {:induction false} FirstReadHangs(value: Job -> int) returns (states: seq<State>, moves: seq<Move>)
    ensures Run(states, moves, value) && states[|moves|].workers.Keys == {0} && states[|moves|].caller.Idle?
    ensures states[|moves|].workers[0].pc == Running(0) && states[|moves|].slot.None? && states[|moves|].nextJob == 1
  {
    var s1 := START.(caller := Holding(0), nextJob := 1);
    var s2 := s1.(slot := Some(0), workers := s1.workers[0 := Worker([], 0, Draining)]);
    var s3 := s2.(caller := Posting(0), workers := s2.workers[0 := Live(s2).(queue := Live(s2).queue + [0])]);
    var s4 := s3.(caller := Waiting(0), workers := s3.workers[0 := Live(s3).(wakes := 1)]);
    var s5 := s4.(workers := s4.workers[0 := Live(s4).(queue := Live(s4).queue[1..], pc := Running(0))]);
    var s6 := s5.(caller := Idle, slot := None, outcomes := s5.outcomes + [Unresponsive(0)]);
    states := [START, s1, s2, s3, s4, s5, s6];
    moves := [Begin, Spawn(0), Send, Post, Work(0), GiveUp];
    assert Step(START, Begin, s1, value) && Step(s1, Spawn(0), s2, value) && Step(s2, Send, s3, value);
    assert Step(s3, Post, s4, value) && Step(s4, Work(0), s5, value) && Step(s5, GiveUp, s6, value);
    hide Step;
  }

  predicate BothRun(s: State) {
    0 in s.workers && 1 in s.workers && s.workers[0].pc == Running(0) && s.workers[1].pc == Running(1)
  }

  /** And they do overlap: a read given up on may still be running when the next
      caller's worker starts its own. */
  lemma {:induction false} ReadsCanOverlap(value: Job -> int) returns (states: seq<State>, moves: seq<Move>)
    ensures Run(states, moves, value) && BothRun(states[|moves|])
  {
    hide Run;
    states, moves := FirstReadHangs(value);
    RunLength(states, moves, value);
    var s6 := states[|moves|];
    var s7 := s6.(caller := Holding(1), nextJob := 2);
    var s8 := s7.(slot := Some(1), workers := s7.workers[1 := Worker([], 0, Draining)]);
    var s9 := s8.(caller := Posting(1), workers := s8.workers[1 := Live(s8).(queue := Live(s8).queue + [1])]);
    var s10 := s9.(workers := s9.workers[1 := Live(s9).(queue := Live(s9).queue[1..], pc := Running(1))]);
    assert Step(s6, Begin, s7, value) && Step(s7, Spawn(1), s8, value) && Step(s8, Send, s9, value);
    assert Step(s9, Work(1), s10, value);
    hide Step;
    Extend(states, moves, Begin, s7, value);
    Extend(states + [s7], moves + [Begin], Spawn(1), s8, value);
    Extend(states + [s7] + [s8], moves + [Begin] + [Spawn(1)], Send, s9, value);
    states, moves := states + [s7] + [s8] + [s9], moves + [Begin] + [Spawn(1)] + [Send];
    Extend(states, moves, Work(1), s10, value);
    states, moves := states + [s10], moves + [Work(1)];
  }

  lemma {:induction false} RunLength(states: seq<State>, moves: seq<Move>, value: Job -> int)
    requires Run(states, moves, value)
    ensures |states| == |moves| + 1
  {
  }
}
