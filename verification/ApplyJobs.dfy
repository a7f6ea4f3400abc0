/**
 * The life of an apply job in billiard/pool.py: submitted, acknowledged by a worker, and
 * resolved by that worker's result, by a hard time limit, or because the worker is gone.
 * ACK and READY of a job may be handled in either order; each handler is one step.
 */
module ApplyJobs {
  import opened Optional

  type Pid = nat
  type JobId = nat

  datatype Outcome =
    | Returned(success: bool, value: nat)     // what the worker sent with READY
    | TimeLimitExceeded
    | WorkerLost
    | Terminated

  /** An ApplyResult.  `resolutions` counts the calls of `_set`. */
  datatype Job = Job(
    accepted: bool,
    workerPid: Option<Pid>,
    outcome: Option<Outcome>,
    workerLost: bool,
    resolutions: nat)

  datatype Table = Table(jobs: map<JobId, Job>, cache: set<JobId>)

  function Resolved(job: Job, o: Outcome): Job {
    job.(outcome := Some(o), resolutions := job.resolutions + 1)
  }

  /** ApplyResult._set: an accepted job leaves the cache. */
  function Resolve(t: Table, j: JobId, o: Outcome): Table
    requires j in t.jobs
  {
    t.(jobs := t.jobs[j := Resolved(t.jobs[j], o)],
       cache := if t.jobs[j].accepted then t.cache - {j} else t.cache)
  }

  /** ApplyResult._ack: a resolved job leaves the cache. */
  function Accept(t: Table, j: JobId, pid: Pid): Table
    requires j in t.jobs
  {
    t.(jobs := t.jobs[j := t.jobs[j].(accepted := true, workerPid := Some(pid))],
       cache := if t.jobs[j].outcome.Some? then t.cache - {j} else t.cache)
  }

  /** ApplyResult.__init__ */
  function Submitted(t: Table, j: JobId): Table {
    Table(t.jobs[j := Job(false, None, None, false, 0)], t.cache + {j})
  }

  /** The job part of on_ack. */
  function OnAck(t: Table, j: JobId, pid: Pid): Table {
    if j in t.cache && j in t.jobs then Accept(t, j, pid) else t
  }

  /** The job part of on_ready. */
  function OnReady(t: Table, j: JobId, o: Outcome): Table {
    if j in t.cache && j in t.jobs then Resolve(t, j, o) else t
  }

  /** on_hard_timeout */
  function OnHardTimeout(t: Table, j: JobId): Table {
    if j in t.jobs && t.jobs[j].outcome.None? then Resolve(t, j, TimeLimitExceeded) else t
  }

  /** The first loop of _join_exited_workers, for one job. */
  function OnLostTimeout(t: Table, j: JobId): Table {
    if j in t.cache && j in t.jobs && t.jobs[j].outcome.None? && t.jobs[j].workerLost
    then Resolve(t, j, WorkerLost) else t
  }

  /** The job was acknowledged by a worker that is not in the pool any more. */
  predicate AckedByGone(job: Job, pool: set<Pid>) {
    job.workerPid.Some? && job.workerPid.value !in pool
  }

  /** What _join_exited_workers does to one job in the cache: `pool` are the workers left, and
      `terminated` the exited workers that were terminated for their job. */
  function Reaped(job: Job, pool: set<Pid>, terminated: set<Pid>): Job {
    if !AckedByGone(job, pool) || job.outcome.Some? then job
    else if job.workerPid.value in terminated then Resolved(job, Terminated)
    else job.(workerLost := true)
  }

  /** Reaping resolves the job, which leaves the cache if it is accepted. */
  predicate Drops(job: Job, pool: set<Pid>, terminated: set<Pid>) {
    job.accepted && job.outcome.None? && Reaped(job, pool, terminated).outcome.Some?
  }

  function ReapOne(t: Table, j: JobId, pool: set<Pid>, terminated: set<Pid>): Table
    requires j in t.jobs
  {
    Table(t.jobs[j := Reaped(t.jobs[j], pool, terminated)],
          if Drops(t.jobs[j], pool, terminated) then t.cache - {j} else t.cache)
  }

  /** ... and to all jobs in `js`. */
  function ReapSet(t: Table, js: set<JobId>, pool: set<Pid>, terminated: set<Pid>): Table {
    Table(map j | j in t.jobs :: if j in js then Reaped(t.jobs[j], pool, terminated) else t.jobs[j],
          t.cache - (set j | j in js && j in t.jobs && Drops(t.jobs[j], pool, terminated)))
  }

  lemma ReapSetStep(t: Table, js: set<JobId>, j: JobId, pool: set<Pid>, terminated: set<Pid>)
    requires j in t.jobs && j !in js
    ensures j in ReapSet(t, js, pool, terminated).jobs
    ensures ReapSet(t, js + {j}, pool, terminated) == ReapOne(ReapSet(t, js, pool, terminated), j, pool, terminated)
  {
    var a, b := ReapSet(t, js + {j}, pool, terminated), ReapOne(ReapSet(t, js, pool, terminated), j, pool, terminated);
    assert a.jobs == b.jobs;
    assert a.cache == b.cache;
  }

  lemma ReapSetEmpty(t: Table, pool: set<Pid>, terminated: set<Pid>)
    ensures ReapSet(t, {}, pool, terminated) == t
  {
    assert ReapSet(t, {}, pool, terminated).jobs == t.jobs;
    assert ReapSet(t, {}, pool, terminated).cache == t.cache;
  }

  function ReapAll(t: Table, pool: set<Pid>, terminated: set<Pid>): Table {
    ReapSet(t, t.cache, pool, terminated)
  }

  // ----- The protocol -----

  /** `gone` are the pids that have left the pool, and `killed` those of them that were terminated
      for their job.  History: `acks` and `readies` are the jobs whose ACK and whose READY have
      been handled, with what these said, and `timeouts` those that have run out of time. */
  datatype State = State(
    t: Table,
    pool: set<Pid>,
    gone: set<Pid>,
    killed: set<Pid>,
    acks: map<JobId, Pid>,
    readies: map<JobId, Outcome>,
    timeouts: set<JobId>)

  datatype Action =
    | Submit(j: JobId)
    | NewWorker(pid: Pid)
    | HandleAck(j: JobId, pid: Pid)
    | HandleReady(j: JobId, success: bool, value: nat)
    | HardTimeout(j: JobId)
    | LostTimeout(j: JobId)
    | Reap(exited: set<Pid>, terminated: set<Pid>)

  /** A job is run by one worker, which sends one ACK and one READY for it; the worker may be
      gone when they are handled.  Pids are not used again. */
  predicate Enabled(s: State, a: Action) {
    match a
    case Submit(j) => j !in s.t.jobs
    case NewWorker(pid) => pid !in s.pool && pid !in s.gone
    case HandleAck(j, pid) => j in s.t.jobs && j !in s.acks && (pid in s.pool || pid in s.gone)
    case HandleReady(j, _, _) => j in s.t.jobs && j !in s.readies
    case HardTimeout(j) => j in s.t.jobs && s.t.jobs[j].accepted
    case LostTimeout(j) => j in s.t.jobs
    case Reap(exited, _) => exited != {} && exited <= s.pool
  }

  function Do(s: State, a: Action): State
    requires Enabled(s, a)
  {
    match a
    case Submit(j) => s.(t := Submitted(s.t, j))
    case NewWorker(pid) => s.(pool := s.pool + {pid})
    case HandleAck(j, pid) => s.(t := OnAck(s.t, j, pid), acks := s.acks[j := pid])
    case HandleReady(j, success, value) =>
      s.(t := OnReady(s.t, j, Returned(success, value)), readies := s.readies[j := Returned(success, value)])
    case HardTimeout(j) => s.(t := OnHardTimeout(s.t, j), timeouts := s.timeouts + {j})
    case LostTimeout(j) => s.(t := OnLostTimeout(s.t, j))
    case Reap(exited, terminated) =>
      s.(t := ReapAll(s.t, s.pool - exited, terminated * exited),
         pool := s.pool - exited,
         gone := s.gone + exited,
         killed := s.killed + terminated * exited)
  }

  predicate Init(s: State) {
    s == State(Table(map[], {}), {}, {}, {}, map[], map[], {})
  }

  // ----- The invariant -----

  /** The outcome is one that something has happened for. */
  ghost predicate Justified(s: State, j: JobId, job: Job) {
    match job.outcome
    case None => true
    case Some(Returned(_, _)) => j in s.readies && s.readies[j] == job.outcome.value
    case Some(TimeLimitExceeded) => j in s.timeouts
    case Some(WorkerLost) => job.workerPid.Some? && job.workerPid.value in s.gone
    case Some(Terminated) => job.workerPid.Some? && job.workerPid.value in s.killed
  }

  ghost predicate JobOk(s: State, j: JobId, job: Job) {
    && (j in s.t.cache <==> !(job.accepted && job.outcome.Some?))
    && job.resolutions == (if job.outcome.Some? then 1 else 0)
    && (job.accepted <==> j in s.acks)
    && job.workerPid == (if j in s.acks then Some(s.acks[j]) else None)
    && (job.workerPid.Some? ==> job.workerPid.value in s.pool + s.gone)
    && Justified(s, j, job)
    && (j in s.readies || j in s.timeouts ==> job.outcome.Some?)
    && (job.outcome.Some? && !job.accepted ==> j in s.readies)
    && (job.workerLost ==> job.accepted && job.workerPid.value in s.gone)
  }

  ghost predicate Inv(s: State) {
    && s.pool !! s.gone && s.killed <= s.gone
    && s.t.cache <= s.t.jobs.Keys
    && (forall j :: j in s.acks ==> j in s.t.jobs)
    && (forall j :: j in s.readies || j in s.timeouts ==> j in s.t.jobs)
    && (forall j :: j in s.t.jobs ==> JobOk(s, j, s.t.jobs[j]))
  }

  lemma StepInv(s: State, a: Action)
    requires Inv(s) && Enabled(s, a)
    ensures Inv(Do(s, a))
  {
    var s' := Do(s, a);
    forall j | j in s'.t.jobs
      ensures JobOk(s', j, s'.t.jobs[j])
    {
      if j in s.t.jobs {
        StepJob(s, a, j);
      }
    }
  }

  lemma StepJob(s: State, a: Action, j: JobId)
    requires Inv(s) && Enabled(s, a) && j in s.t.jobs
    ensures j in Do(s, a).t.jobs && JobOk(Do(s, a), j, Do(s, a).t.jobs[j])
  {
    hide Inv, Do, Enabled, JobOk;
    match a
    case Submit(i) => SubmitJob(s, i, j);
    case NewWorker(pid) => NewWorkerJob(s, pid, j);
    case HandleAck(i, pid) => AckJob(s, i, pid, j);
    case HandleReady(i, success, value) => ReadyJob(s, i, success, value, j);
    case HardTimeout(i) => HardTimeoutJob(s, i, j);
    case LostTimeout(i) => LostTimeoutJob(s, i, j);
    case Reap(exited, terminated) => ReapJob(s, exited, terminated, j);
  }

  lemma SubmitJob(s: State, i: JobId, j: JobId)
    requires Inv(s) && Enabled(s, Submit(i)) && j in s.t.jobs
    ensures var s' := Do(s, Submit(i)); j in s'.t.jobs && JobOk(s', j, s'.t.jobs[j])
  {
    hide ReapSet;
    assert JobOk(s, j, s.t.jobs[j]);
  }

  lemma NewWorkerJob(s: State, pid: Pid, j: JobId)
    requires Inv(s) && Enabled(s, NewWorker(pid)) && j in s.t.jobs
    ensures var s' := Do(s, NewWorker(pid)); j in s'.t.jobs && JobOk(s', j, s'.t.jobs[j])
  {
    hide ReapSet;
    assert JobOk(s, j, s.t.jobs[j]);
  }

  lemma AckJob(s: State, i: JobId, pid: Pid, j: JobId)
    requires Inv(s) && Enabled(s, HandleAck(i, pid)) && j in s.t.jobs
    ensures var s' := Do(s, HandleAck(i, pid)); j in s'.t.jobs && JobOk(s', j, s'.t.jobs[j])
  {
    hide ReapSet;
    assert JobOk(s, j, s.t.jobs[j]);
  }

  lemma ReadyJob(s: State, i: JobId, success: bool, value: nat, j: JobId)
    requires Inv(s) && Enabled(s, HandleReady(i, success, value)) && j in s.t.jobs
    ensures var s' := Do(s, HandleReady(i, success, value)); j in s'.t.jobs && JobOk(s', j, s'.t.jobs[j])
  {
    hide ReapSet;
    assert JobOk(s, j, s.t.jobs[j]);
  }

  lemma HardTimeoutJob(s: State, i: JobId, j: JobId)
    requires Inv(s) && Enabled(s, HardTimeout(i)) && j in s.t.jobs
    ensures var s' := Do(s, HardTimeout(i)); j in s'.t.jobs && JobOk(s', j, s'.t.jobs[j])
  {
    hide ReapSet;
    assert JobOk(s, j, s.t.jobs[j]);
  }

  lemma LostTimeoutJob(s: State, i: JobId, j: JobId)
    requires Inv(s) && Enabled(s, LostTimeout(i)) && j in s.t.jobs
    ensures var s' := Do(s, LostTimeout(i)); j in s'.t.jobs && JobOk(s', j, s'.t.jobs[j])
  {
    hide ReapSet;
    assert JobOk(s, j, s.t.jobs[j]);
  }

  lemma ReapJob(s: State, exited: set<Pid>, terminated: set<Pid>, j: JobId)
    requires Inv(s) && Enabled(s, Reap(exited, terminated)) && j in s.t.jobs
    ensures var s' := Do(s, Reap(exited, terminated)); j in s'.t.jobs && JobOk(s', j, s'.t.jobs[j])
  {
    assert JobOk(s, j, s.t.jobs[j]);
  }

  /** A resolved job stays resolved, with the same outcome. */
  lemma StepStable(s: State, a: Action, j: JobId)
    requires Inv(s) && Enabled(s, a) && j in s.t.jobs && s.t.jobs[j].outcome.Some?
    ensures j in Do(s, a).t.jobs && Do(s, a).t.jobs[j].outcome == s.t.jobs[j].outcome
  {
    assert JobOk(s, j, s.t.jobs[j]);
  }

  /** Whether the event, for a job that is not resolved, resolves it, and how. */
  ghost function Verdict(s: State, a: Action, j: JobId): Option<Outcome>
    requires j in s.t.jobs
  {
    var job := s.t.jobs[j];
    match a
    case HandleReady(i, success, value) => if i == j then Some(Returned(success, value)) else None
    case HardTimeout(i) => if i == j then Some(TimeLimitExceeded) else None
    case LostTimeout(i) => if i == j && job.workerLost then Some(WorkerLost) else None
    case Reap(exited, terminated) =>
      if job.workerPid.Some? && job.workerPid.value in exited && job.workerPid.value in terminated
      then Some(Terminated) else None
    case _ => None
  }

  /** Whatever the cache holds, an event resolves a job that is not resolved exactly as its verdict
      says, and marks it as lost exactly if it reaps and finds the worker gone, but not
      terminated for the job. */
  lemma StepVerdict(s: State, a: Action, j: JobId)
    requires Inv(s) && Enabled(s, a) && j in s.t.jobs && s.t.jobs[j].outcome.None?
    ensures j in Do(s, a).t.jobs && Do(s, a).t.jobs[j].outcome == Verdict(s, a, j)
    ensures Do(s, a).t.jobs[j].workerLost <==>
              s.t.jobs[j].workerLost ||
              (a.Reap? && s.t.jobs[j].workerPid.Some? && Verdict(s, a, j).None? &&
               (s.t.jobs[j].workerPid.value in s.gone || s.t.jobs[j].workerPid.value in a.exited))
  {
    hide Justified;
    assert JobOk(s, j, s.t.jobs[j]);
  }

  /** A job is submitted without an outcome. */
  lemma StepSubmitted(s: State, a: Action, j: JobId)
    requires Inv(s) && Enabled(s, a) && j !in s.t.jobs && j in Do(s, a).t.jobs
    ensures a == Submit(j) && Do(s, a).t.jobs[j] == Job(false, None, None, false, 0)
  {
  }

  // ----- Runs -----

  ghost predicate Run(ss: seq<State>, acts: seq<Action>) {
    && |ss| == |acts| + 1
    && forall i {:trigger acts[i]} :: 0 <= i < |acts| ==>
         Enabled(ss[i], acts[i]) && ss[i + 1] == Do(ss[i], acts[i])
  }

  lemma {:induction false} RunInv(ss: seq<State>, acts: seq<Action>, i: nat)
    requires Run(ss, acts) && Init(ss[0]) && i < |ss|
    ensures Inv(ss[i])
  {
    if i > 0 {
      hide Inv, Do, Enabled;
      RunInv(ss, acts, i - 1);
      StepInv(ss[i - 1], acts[i - 1]);
    }
  }

  /** In every run, every job has been resolved at most once, is in the cache exactly while it
      is not both accepted and resolved, and is marked WorkerLostError only if the worker that
      acknowledged it has left the pool. */
  lemma JobLifeCycle(ss: seq<State>, acts: seq<Action>, i: nat, j: JobId)
    requires Run(ss, acts) && Init(ss[0]) && i < |ss| && j in ss[i].t.jobs
    ensures var job := ss[i].t.jobs[j];
            && job.resolutions <= 1
            && (j in ss[i].t.cache <==> !(job.accepted && job.outcome.Some?))
            && (job.outcome == Some(WorkerLost) ==> job.workerPid.Some? && job.workerPid.value !in ss[i].pool)
  {
    RunInv(ss, acts, i);
    assert JobOk(ss[i], j, ss[i].t.jobs[j]);
  }

  /** In every run, a job's outcome is the verdict of an event that found it unresolved: exactly
      what READY brought, a time limit only if one has struck, WorkerLostError only for a job
      marked as lost, Terminated only if its worker was reaped as terminated. */
  lemma {:induction false} OutcomeHasCause(ss: seq<State>, acts: seq<Action>, i: nat, j: JobId)
    requires Run(ss, acts) && Init(ss[0]) && i < |ss| && j in ss[i].t.jobs && ss[i].t.jobs[j].outcome.Some?
    ensures exists k :: 0 <= k < i && Causes(ss[k], acts[k], j, ss[i].t.jobs[j].outcome)
  {
    hide Inv, Do, Enabled, Verdict;
    var s, a := ss[i - 1], acts[i - 1];
    RunInv(ss, acts, i - 1);
    if j !in s.t.jobs {
      StepSubmitted(s, a, j);
    } else if s.t.jobs[j].outcome.None? {
      StepVerdict(s, a, j);
      assert Causes(s, a, j, ss[i].t.jobs[j].outcome);
    } else {
      StepStable(s, a, j);
      OutcomeHasCause(ss, acts, i - 1, j);
    }
  }

  ghost predicate Causes(s: State, a: Action, j: JobId, o: Option<Outcome>) {
    j in s.t.jobs && s.t.jobs[j].outcome.None? && o.Some? && Verdict(s, a, j) == o
  }

  /** Conversely, an event whose verdict finds the job unresolved gives it its outcome for good. */
  lemma VerdictFinal(ss: seq<State>, acts: seq<Action>, k: nat, i: nat, j: JobId)
    requires Run(ss, acts) && Init(ss[0]) && k < i < |ss|
    requires j in ss[k].t.jobs && ss[k].t.jobs[j].outcome.None? && Verdict(ss[k], acts[k], j).Some?
    ensures j in ss[i].t.jobs && ss[i].t.jobs[j].outcome == Verdict(ss[k], acts[k], j)
  {
    hide Inv, Do, Enabled, Verdict;
    RunInv(ss, acts, k);
    StepVerdict(ss[k], acts[k], j);
    OutcomeFinal(ss, acts, k + 1, i, j);
  }

  /** In every run the worker noted for a job is the one whose ACK was handled. */
  lemma {:induction false} WorkerAcked(ss: seq<State>, acts: seq<Action>, i: nat, j: JobId, pid: Pid)
    requires Run(ss, acts) && Init(ss[0]) && i < |ss| && j in ss[i].t.jobs
    ensures ss[i].t.jobs[j].workerPid == Some(pid) <==> exists k :: 0 <= k < i && acts[k] == HandleAck(j, pid)
  {
    RunInv(ss, acts, i);
    assert JobOk(ss[i], j, ss[i].t.jobs[j]);
    AckEvents(ss, acts, i, j, pid);
  }

  lemma {:induction false} AckEvents(ss: seq<State>, acts: seq<Action>, i: nat, j: JobId, pid: Pid)
    requires Run(ss, acts) && Init(ss[0]) && i < |ss|
    ensures j in ss[i].acks && ss[i].acks[j] == pid <==> exists k :: 0 <= k < i && acts[k] == HandleAck(j, pid)
  {
    if i > 0 {
      AckEvents(ss, acts, i - 1, j, pid);
      assert Enabled(ss[i - 1], acts[i - 1]);
    }
  }

  /** The outcome a job has at some moment of a run is the outcome it has ever after. */
  lemma {:induction false} OutcomeFinal(ss: seq<State>, acts: seq<Action>, i: nat, k: nat, j: JobId)
    requires Run(ss, acts) && Init(ss[0]) && i <= k < |ss|
    requires j in ss[i].t.jobs && ss[i].t.jobs[j].outcome.Some?
    ensures j in ss[k].t.jobs && ss[k].t.jobs[j].outcome == ss[i].t.jobs[j].outcome
    decreases k
  {
    if i < k {
      OutcomeFinal(ss, acts, i, k - 1, j);
      RunInv(ss, acts, k - 1);
      StepStable(ss[k - 1], acts[k - 1], j);
    }
  }
}
