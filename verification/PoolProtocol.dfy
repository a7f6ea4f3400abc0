/**
 * The result protocol of billiard/pool.py as a whole: workers as in module ResultCredit, the
 * life of apply jobs as in module ApplyJobs, and the tables of a ResultHandler object, all
 * driven by the same events.  That a job is acknowledged and answered at most once, which
 * ApplyJobs takes for granted, is derived here from what workers do.
 */
module PoolProtocol {
  import opened Optional
  import opened Tally
  import RC = ResultCredit
  import AJ = ApplyJobs
  import opened ResultHandling

  /** What a task has returned, or the exception it has raised. */
  datatype Result = Result(success: bool, value: nat)

  /** `results` is what the workers have sent with their READY messages. */
  datatype State = State(apply: AJ.State, credit: RC.State, results: map<RC.Task, Result>)

  datatype Action =
    | Submit(j: JobId)
    | NewWorker(p: Pid)
    | Work(p: Pid, a: RC.Action, result: Result)    // a worker's own step; Finish sends the result
    | Handle(p: Pid)                                // the result handler takes the worker's next message
    | HardTimeout(j: JobId)
    | LostTimeout(j: JobId)
    | Reap(exited: seq<Pid>, terminated: set<Pid>)

  /** Submitting takes a new job number.  The task of an apply job has no chunk index, and is put
      to the queue after the job is entered; other tasks belong to other jobs. */
  ghost predicate Enabled(s: State, a: Action) {
    match a
    case Submit(j) => j !in s.apply.t.jobs && forall t :: t in s.credit.dispatched ==> t.job != j
    case NewWorker(p) => p !in s.credit.workers
    case Work(p, b, _) =>
      && (b.Take? || b.Refuse? || b.Finish? || b.Book? || b.Die?)
      && RC.Enabled(s.credit, p, b)
      && (b.Take? ==> (b.task.i.None? <==> b.task.job in s.apply.t.jobs))
    case Handle(p) => p in s.credit.workers && s.credit.workers[p].outbox != []
    case HardTimeout(j) => j in s.apply.t.jobs && s.apply.t.jobs[j].accepted
    case LostTimeout(j) => j in s.apply.t.jobs
    case Reap(exited, _) =>
      && exited != [] && Distinct(exited)
      && forall p :: p in exited ==>
           p in s.credit.workers && !s.credit.workers[p].alive && p in s.credit.credit.counters
  }

  /** What the event is for the apply jobs, if anything. */
  function ForJobs(s: State, a: Action): Option<AJ.Action> {
    match a
    case Submit(j) => Some(AJ.Submit(j))
    case NewWorker(p) => Some(AJ.NewWorker(p))
    case Work(_, _, _) => None
    case Handle(p) =>
      if p !in s.credit.workers || s.credit.workers[p].outbox == [] then None
      else
        var m := s.credit.workers[p].outbox[0];
        if m.task.i.Some? then None
        else if m.Ack? then Some(AJ.HandleAck(m.task.job, p))
        else if m.task !in s.results then None
        else Some(AJ.HandleReady(m.task.job, s.results[m.task].success, s.results[m.task].value))
    case HardTimeout(j) => Some(AJ.HardTimeout(j))
    case LostTimeout(j) => Some(AJ.LostTimeout(j))
    case Reap(exited, terminated) => Some(AJ.Reap(Elements(exited), terminated))
  }

  function DoJobs(s: State, a: Action): AJ.State {
    var b := ForJobs(s, a);
    if b.Some? && AJ.Enabled(s.apply, b.value) then AJ.Do(s.apply, b.value) else s.apply
  }

  /** The workers are reaped one by one, in the order in which they are found. */
  function ReapEach(c: RC.Credit, exited: seq<Pid>): RC.Credit {
    if exited == [] then c
    else RC.Exited(ReapEach(c, exited[..|exited| - 1]), exited[|exited| - 1])
  }

  function DoCredit(s: State, a: Action): RC.State
    requires Enabled(s, a)
  {
    match a
    case NewWorker(p) => RC.Do(s.credit, p, RC.Create)
    case Work(p, b, _) => RC.Do(s.credit, p, b)
    case Handle(p) => RC.Do(s.credit, p, RC.Handle)
    case Reap(exited, _) => s.credit.(credit := ReapEach(s.credit.credit, exited))
    case _ => s.credit
  }

  function DoResults(s: State, a: Action): map<RC.Task, Result>
    requires Enabled(s, a)
  {
    if a.Work? && a.a.Finish? then s.results[s.credit.workers[a.p].current.value := a.result] else s.results
  }

  function Do(s: State, a: Action): State
    requires Enabled(s, a)
  {
    State(DoJobs(s, a), DoCredit(s, a), DoResults(s, a))
  }

  predicate Init(s: State) {
    AJ.Init(s.apply) && RC.Init(s.credit) && s.results == map[]
  }

  // ----- The invariant -----

  /** The workers are those in the pool and those that have left it; the counters are those of
      the pool. */
  ghost predicate SamePids(s: State) {
    && (forall p :: p in s.credit.workers <==> p in s.apply.pool || p in s.apply.gone)
    && (forall p :: p in s.credit.credit.counters <==> p in s.apply.pool)
  }

  ghost predicate KnownJobs(s: State) {
    && (forall t :: t in s.credit.dispatched ==> (t.i.None? <==> t.job in s.apply.t.jobs))
    && (forall j :: j in s.apply.acks || j in s.apply.readies ==> RC.Task(j, None) in s.credit.dispatched)
  }

  /** What a message or a task announces has not happened yet. */
  ghost predicate Pending(s: AJ.State, m: RC.Msg) {
    m.task.i.None? ==> if m.Ack? then m.task.job !in s.acks else m.task.job !in s.readies
  }

  ghost predicate Once(s: AJ.State, w: RC.Worker) {
    && Distinct(w.outbox)
    && (forall m :: m in w.outbox ==> Pending(s, m))
    && (w.current.Some? ==> Pending(s, RC.Ready(w.current.value)) && RC.Ready(w.current.value) !in w.outbox)
  }

  /** What is sent with a READY is at hand, and what was handled is what was sent. */
  ghost predicate SameResults(s: State) {
    && (forall p, m :: p in s.credit.workers && m in s.credit.workers[p].outbox && m.Ready? ==> m.task in s.results)
    && (forall j :: j in s.apply.readies ==>
          && RC.Task(j, None) in s.results
          && var x := s.results[RC.Task(j, None)]; s.apply.readies[j] == AJ.Returned(x.success, x.value))
  }

  ghost predicate Inv(s: State) {
    && AJ.Inv(s.apply) && RC.Inv(s.credit)
    && SamePids(s) && KnownJobs(s) && SameResults(s)
    && (forall p :: p in s.credit.workers ==> Once(s.apply, s.credit.workers[p]))
  }

  lemma InitInv(s: State)
    requires Init(s)
    ensures Inv(s)
  {
  }

  // ----- Steps -----

  /** The next message of p is about a task of p, and of no other worker. */
  lemma HeadOf(s: State, p: Pid)
    requires Inv(s) && p in s.credit.workers && s.credit.workers[p].outbox != []
    ensures var m := s.credit.workers[p].outbox[0];
            && Pending(s.apply, m)
            && m.task in s.credit.dispatched && s.credit.dispatched[m.task] == p
  {
    RC.HeadIsMine(s.credit, p);
    assert Once(s.apply, s.credit.workers[p]);
    assert s.credit.workers[p].outbox[0] in s.credit.workers[p].outbox;
  }

  /** What ApplyJobs expects of the messages and of the pool is so. */
  lemma JobsEnabled(s: State, a: Action)
    requires Inv(s) && Enabled(s, a) && ForJobs(s, a).Some?
    ensures AJ.Enabled(s.apply, ForJobs(s, a).value)
  {
    hide AJ.Inv, RC.Inv, Once;
    match a
    case Handle(p) => HeadOf(s, p);
    case Reap(exited, _) => assert exited[0] in Elements(exited);
    case _ =>
  }

  lemma StepJobs(s: State, a: Action)
    requires Inv(s) && Enabled(s, a)
    ensures AJ.Inv(DoJobs(s, a))
  {
    hide AJ.Inv, RC.Inv, AJ.Enabled, AJ.Do;
    if ForJobs(s, a).Some? {
      JobsEnabled(s, a);
      AJ.StepInv(s.apply, ForJobs(s, a).value);
    }
  }

  lemma {:induction false} ReapEachInv(s: RC.State, exited: seq<Pid>)
    requires RC.Inv(s) && Distinct(exited)
    requires forall p :: p in exited ==> p in s.workers && !s.workers[p].alive && p in s.credit.counters
    ensures RC.Inv(s.(credit := ReapEach(s.credit, exited)))
    ensures forall p :: p in ReapEach(s.credit, exited).counters <==> p in s.credit.counters && p !in exited
  {
    hide RC.Inv;
    if exited == [] {
      assert s.(credit := s.credit) == s;
    } else {
      var n := |exited| - 1;
      assert exited == exited[..n] + [exited[n]];
      ReapEachInv(s, exited[..n]);
      RC.StepInv(s.(credit := ReapEach(s.credit, exited[..n])), exited[n], RC.Reap);
    }
  }

  lemma StepCredit(s: State, a: Action)
    requires Inv(s) && Enabled(s, a)
    ensures RC.Inv(DoCredit(s, a))
  {
    hide AJ.Inv, RC.Inv, Once, KnownJobs;
    match a
    case NewWorker(p) => RC.StepInv(s.credit, p, RC.Create);
    case Work(p, b, _) => RC.StepInv(s.credit, p, b);
    case Handle(p) => RC.StepInv(s.credit, p, RC.Handle);
    case Reap(exited, _) => ReapEachInv(s.credit, exited);
    case _ =>
  }

  /** How an event changes the pool and the messages accounted for. */
  lemma JobsChange(s: State, a: Action)
    requires Inv(s) && Enabled(s, a)
    ensures var t := DoJobs(s, a);
            && t.pool == (if a.NewWorker? then s.apply.pool + {a.p}
                          else if a.Reap? then s.apply.pool - Elements(a.exited) else s.apply.pool)
            && t.gone == (if a.Reap? then s.apply.gone + Elements(a.exited) else s.apply.gone)
            && t.acks == (match ForJobs(s, a)
                          case Some(HandleAck(j, p)) => s.apply.acks[j := p]
                          case _ => s.apply.acks)
            && t.readies == (match ForJobs(s, a)
                             case Some(HandleReady(j, x, v)) => s.apply.readies[j := AJ.Returned(x, v)]
                             case _ => s.apply.readies)
            && (forall j :: j in t.t.jobs <==> j in s.apply.t.jobs || a == Submit(j))
  {
    hide AJ.Inv, RC.Inv, Once, KnownJobs, SamePids;
    if ForJobs(s, a).Some? {
      JobsEnabled(s, a);
    }
  }

  /** How an event changes the workers, the counters and the tasks handed out. */
  lemma CreditChange(s: State, a: Action)
    requires Inv(s) && Enabled(s, a)
    ensures var c := DoCredit(s, a);
            && (forall p :: p in c.workers <==> p in s.credit.workers || a == NewWorker(p))
            && (forall p :: p in c.credit.counters <==>
                  (p in s.credit.credit.counters && !(a.Reap? && p in a.exited)) || a == NewWorker(p))
            && c.dispatched == (if a.Work? && a.a.Take? then s.credit.dispatched[a.a.task := a.p]
                                else s.credit.dispatched)
            && (forall p :: p in s.credit.workers && !((a.Work? || a.Handle?) && p == a.p) ==>
                  c.workers[p] == s.credit.workers[p])
            && (a.NewWorker? ==> c.workers[a.p].outbox == [])
  {
    hide AJ.Inv, RC.Inv, Once, KnownJobs, SamePids;
    if a.Reap? {
      ReapEachInv(s.credit, a.exited);
    }
  }

  lemma StepPids(s: State, a: Action)
    requires Inv(s) && Enabled(s, a)
    ensures SamePids(Do(s, a))
  {
    hide AJ.Inv, RC.Inv, Once, KnownJobs, DoJobs, DoCredit;
    JobsChange(s, a);
    CreditChange(s, a);
  }

  lemma StepKnown(s: State, a: Action)
    requires Inv(s) && Enabled(s, a)
    ensures KnownJobs(Do(s, a))
  {
    hide AJ.Inv, RC.Inv, Once, DoJobs, DoCredit, SamePids;
    JobsChange(s, a);
    CreditChange(s, a);
    if a.Handle? {
      HeadOf(s, a.p);
    }
  }

  /** The messages of a worker that does not move stay pending. */
  lemma OthersOnce(s: State, a: Action, q: Pid)
    requires Inv(s) && Enabled(s, a) && q in s.credit.workers && !((a.Work? || a.Handle?) && q == a.p)
    ensures Once(DoJobs(s, a), s.credit.workers[q])
  {
    hide AJ.Inv, DoJobs, DoCredit, SamePids, KnownJobs, RC.TablesInv, RC.Credited, RC.Readies, Distinct;
    JobsChange(s, a);
    var w := s.credit.workers[q];
    assert Once(s.apply, w) && RC.Mine(s.credit.dispatched, q, w);
    if a.Handle? {
      HeadOf(s, a.p);
    }
  }

  /** A worker that takes a task: its messages so far are about others. */
  lemma TakeOnce(s: AJ.State, dispatched: map<RC.Task, Pid>, p: Pid, w: RC.Worker, task: RC.Task)
    requires Once(s, w) && RC.Mine(dispatched, p, w) && task !in dispatched
    requires task.i.None? ==> task.job !in s.acks && task.job !in s.readies
    ensures Once(s, w.(current := Some(task), outbox := w.outbox + [RC.Ack(task)]))
  {
    assert RC.Ack(task) !in w.outbox && RC.Ready(task) !in w.outbox;
    DistinctSnoc(w.outbox, RC.Ack(task));
  }

  lemma FinishOnce(s: AJ.State, w: RC.Worker)
    requires Once(s, w) && w.current.Some?
    ensures Once(s, w.(current := None, uncounted := true, outbox := w.outbox + [RC.Ready(w.current.value)]))
  {
    DistinctSnoc(w.outbox, RC.Ready(w.current.value));
  }

  /** A worker that moves by itself. */
  lemma WorkOnce(s: State, p: Pid, b: RC.Action, result: Result)
    requires Inv(s) && Enabled(s, Work(p, b, result))
    ensures Once(s.apply, RC.Do(s.credit, p, b).workers[p])
  {
    hide AJ.Inv, SamePids, Distinct, RC.TablesInv, RC.Credited;
    var w := s.credit.workers[p];
    assert Once(s.apply, w) && RC.Mine(s.credit.dispatched, p, w);
    if b.Take? {
      hide Once, RC.Mine;
      TakeOnce(s.apply, s.credit.dispatched, p, w, b.task);
    } else if b.Finish? {
      hide Once, RC.Mine;
      FinishOnce(s.apply, w);
    }
  }

  /** Taking off the first message and noting that it was handled leaves the others pending. */
  lemma HeadOnce(s: AJ.State, s': AJ.State, w: RC.Worker)
    requires Once(s, w) && w.outbox != []
    requires var m := w.outbox[0];
             && (forall j :: j in s'.acks <==> j in s.acks || (m == RC.Ack(RC.Task(j, None))))
             && (forall j :: j in s'.readies <==> j in s.readies || (m == RC.Ready(RC.Task(j, None))))
    ensures Once(s', w.(outbox := w.outbox[1..]))
  {
    var rest := w.outbox[1..];
    assert w.outbox[0] in w.outbox && w.outbox == [w.outbox[0]] + rest;
    assert w.outbox[0] !in rest;
    forall m | m in rest
      ensures Pending(s', m)
    {
      assert m in w.outbox && m != w.outbox[0];
    }
  }

  /** A worker whose message is handled. */
  lemma HandleOnce(s: State, a: Action)
    requires Inv(s) && Enabled(s, a) && a.Handle?
    ensures Once(DoJobs(s, a), DoCredit(s, a).workers[a.p])
  {
    hide AJ.Inv, RC.Inv, DoJobs, SamePids, KnownJobs, Distinct;
    JobsChange(s, a);
    HeadOf(s, a.p);
    var w, t := s.credit.workers[a.p], DoJobs(s, a);
    assert Once(s.apply, w) && w.outbox[0] in w.outbox;
    HeadOnce(s.apply, t, w);
  }

  /** The results of the tasks handled or on their way do not change. */
  lemma StepResults(s: State, a: Action)
    requires Inv(s) && Enabled(s, a)
    ensures SameResults(Do(s, a))
  {
    hide AJ.Inv, RC.Inv, DoJobs, DoCredit, SamePids, KnownJobs, Distinct;
    JobsChange(s, a);
    CreditChange(s, a);
    if a.Work? || a.Handle? {
      assert Once(s.apply, s.credit.workers[a.p]);
      OutboxChange(s, a);
    }
    if a.Handle? {
      HeadOf(s, a.p);
    }
  }

  /** How the messages of the worker that moves, or whose message is handled, change. */
  lemma OutboxChange(s: State, a: Action)
    requires Enabled(s, a) && (a.Work? || a.Handle?)
    ensures a.p in DoCredit(s, a).workers
    ensures forall m :: m in DoCredit(s, a).workers[a.p].outbox && m.Ready? ==>
              m in s.credit.workers[a.p].outbox ||
              (a.Work? && a.a.Finish? && m == RC.Ready(s.credit.workers[a.p].current.value))
  {
  }

  lemma StepInv(s: State, a: Action)
    requires Inv(s) && Enabled(s, a)
    ensures Inv(Do(s, a))
  {
    hide AJ.Inv, RC.Inv, Once, SamePids, KnownJobs, SameResults, DoJobs, RC.Do;
    StepResults(s, a);
    StepJobs(s, a);
    StepCredit(s, a);
    StepPids(s, a);
    StepKnown(s, a);
    CreditChange(s, a);
    forall q | q in DoCredit(s, a).workers
      ensures Once(DoJobs(s, a), DoCredit(s, a).workers[q])
    {
      if a == NewWorker(q) {
        NewOnce(s, q);
      } else if a.Work? && q == a.p {
        WorkOnce(s, q, a.a, a.result);
        assert DoJobs(s, a) == s.apply by {
          WorkLeavesJobs(s, a);
        }
      } else if a.Handle? && q == a.p {
        HandleOnce(s, a);
      } else {
        OthersOnce(s, a, q);
      }
    }
  }

  lemma WorkLeavesJobs(s: State, a: Action)
    requires a.Work?
    ensures DoJobs(s, a) == s.apply
  {
  }

  lemma NewOnce(s: State, p: Pid)
    requires Enabled(s, NewWorker(p))
    ensures Once(DoJobs(s, NewWorker(p)), DoCredit(s, NewWorker(p)).workers[p])
  {
  }

  // ----- The object over whole runs -----

  /** The tables of the object are those of the state. */
  ghost predicate Mirrors(h: ResultHandler, s: State)
    reads h
  {
    h.Valid() && h.Table() == s.apply.t && h.Credit() == s.credit.credit
  }

  ghost predicate CanRun(s: State, acts: seq<Action>)
    decreases |acts|
  {
    acts == [] || (Enabled(s, acts[0]) && CanRun(Do(s, acts[0]), acts[1..]))
  }

  /** The state after the events. */
  function After(s: State, acts: seq<Action>): State
    requires CanRun(s, acts)
    decreases |acts|
  {
    if acts == [] then s else After(Do(s, acts[0]), acts[1..])
  }

  /** What is promised of the object's tables: each job is resolved at most once, is cached
      exactly while it is not both accepted and resolved; it is recorded as returned only with
      the result that its worker has sent, as timed out only if it has run out of time, as lost
      only if its worker has left the pool, as terminated only if its worker was; and each counter
      is the number of READY messages of its worker handled so far. */
  ghost predicate Sound(h: ResultHandler, s: State)
    reads h
  {
    && (forall j :: j in h.jobs ==>
          && h.jobs[j].resolutions <= 1
          && (j in h.cache <==> !(h.jobs[j].accepted && h.jobs[j].outcome.Some?))
          && match h.jobs[j].outcome
             case None => true
             case Some(Returned(success, value)) =>
               RC.Task(j, None) in s.results && s.results[RC.Task(j, None)] == Result(success, value)
             case Some(TimeLimitExceeded) => j in s.apply.timeouts
             case Some(WorkerLost) =>
               h.jobs[j].workerPid.Some? && h.jobs[j].workerPid.value !in h.onReadyCounters
             case Some(Terminated) =>
               h.jobs[j].workerPid.Some? && h.jobs[j].workerPid.value in s.apply.killed)
    && (forall p :: p in h.onReadyCounters ==>
          p in s.credit.workers && h.onReadyCounters[p] == s.credit.workers[p].handled)
  }

  /** The result that the events send for a task, after what was sent before. */
  ghost function Sent(s: State, acts: seq<Action>, t: RC.Task, before: Option<Result>): Option<Result>
    requires CanRun(s, acts)
    decreases |acts|
  {
    if acts == [] then before
    else
      var a := acts[0];
      var sends := a.Work? && a.a == RC.Finish && s.credit.workers[a.p].current == Some(t);
      Sent(Do(s, a), acts[1..], t, if sends then Some(a.result) else before)
  }

  function Recorded(s: State, t: RC.Task): Option<Result> {
    if t in s.results then Some(s.results[t]) else None
  }

  lemma {:induction false} SentIsRecorded(s: State, acts: seq<Action>, t: RC.Task)
    requires CanRun(s, acts)
    ensures Recorded(After(s, acts), t) == Sent(s, acts, t, Recorded(s, t))
    decreases |acts|
  {
    if acts != [] {
      hide DoJobs, DoCredit;
      SentIsRecorded(Do(s, acts[0]), acts[1..], t);
    }
  }

  /** A time limit has struck, or a worker has been terminated for its job, only by an event. */
  lemma StepLimits(s: State, a: Action)
    requires Inv(s) && Enabled(s, a)
    ensures forall j :: j in DoJobs(s, a).timeouts ==> j in s.apply.timeouts || a == HardTimeout(j)
    ensures forall p :: p in DoJobs(s, a).killed ==> p in s.apply.killed || Kills(a, p)
  {
    hide AJ.Inv, RC.Inv, Once, SamePids, KnownJobs, SameResults;
  }

  predicate Kills(a: Action, p: Pid) {
    a.Reap? && p in a.exited && p in a.terminated
  }

  lemma {:induction false} LimitsAreEvents(s: State, acts: seq<Action>)
    requires Inv(s) && CanRun(s, acts)
    ensures forall j :: j in After(s, acts).apply.timeouts ==> j in s.apply.timeouts || HardTimeout(j) in acts
    ensures forall p :: p in After(s, acts).apply.killed ==>
              p in s.apply.killed || exists a :: a in acts && Kills(a, p)
    decreases |acts|
  {
    if acts != [] {
      hide Inv, DoJobs, DoCredit, Kills, Enabled;
      StepInv(s, acts[0]);
      StepLimits(s, acts[0]);
      LimitsAreEvents(Do(s, acts[0]), acts[1..]);
      assert acts[0] in acts && forall a :: a in acts[1..] ==> a in acts;
    }
  }

  lemma MirrorSound(h: ResultHandler, s: State)
    requires Mirrors(h, s) && Inv(s)
    ensures Sound(h, s)
  {
    hide Once, KnownJobs;
    forall j | j in h.jobs
      ensures AJ.JobOk(s.apply, j, h.jobs[j])
    {
      assert s.apply.t.jobs[j] == h.jobs[j];
    }
    forall p | p in h.onReadyCounters
      ensures p in s.credit.workers && h.onReadyCounters[p] == s.credit.workers[p].handled
    {
      assert p in s.credit.credit.counters && RC.Credited(s.credit.credit, p, s.credit.workers[p]);
    }
  }

  /** What the READY of a task brings. */
  function Answer(s: State, task: RC.Task): AJ.Outcome {
    if task in s.results then AJ.Returned(s.results[task].success, s.results[task].value)
    else AJ.Returned(false, 0)
  }

  /** The tables of the apply jobs after an event that concerns them. */
  lemma TableAfter(s: State, a: Action)
    requires Inv(s) && Enabled(s, a)
    ensures DoJobs(s, a).t ==
            match a
            case Submit(j) => AJ.Submitted(s.apply.t, j)
            case NewWorker(_) => s.apply.t
            case Work(_, _, _) => s.apply.t
            case Handle(p) =>
              var m := s.credit.workers[p].outbox[0];
              if m.Ack? then AJ.OnAck(s.apply.t, m.task.job, p)
              else AJ.OnReady(s.apply.t, m.task.job, Answer(s, m.task))
            case HardTimeout(j) => AJ.OnHardTimeout(s.apply.t, j)
            case LostTimeout(j) => AJ.OnLostTimeout(s.apply.t, j)
            case Reap(exited, terminated) =>
              AJ.ReapAll(s.apply.t, s.apply.pool - Elements(exited), terminated * Elements(exited))
  {
    hide AJ.Inv, RC.Inv, Once, SamePids, AJ.OnHardTimeout, AJ.OnLostTimeout, AJ.ReapAll, AJ.Resolve, AJ.Accept;
    if ForJobs(s, a).Some? {
      JobsEnabled(s, a);
    }
    if a.Handle? {
      HeadOf(s, a.p);
    }
  }

  /** Reaping: every exited worker leaves the tables of credit, then the jobs are looked over. */
  method ReapWorkers(h: ResultHandler, exited: seq<Pid>, pool: set<Pid>, terminated: set<Pid>)
    requires h.Valid() && Distinct(exited) && forall p :: p in exited ==> p in h.onReadyCounters
    modifies h
    ensures h.Valid()
    ensures h.Credit() == ReapEach(old(h.Credit()), exited)
    ensures h.Table() == AJ.ReapAll(old(h.Table()), pool, terminated)
  {
    var i := 0;
    while i < |exited|
      invariant 0 <= i <= |exited|
      invariant h.Valid() && h.Table() == old(h.Table())
      invariant h.Credit() == ReapEach(old(h.Credit()), exited[..i])
      invariant forall k :: i <= k < |exited| ==> exited[k] in h.onReadyCounters
    {
      assert exited[..i + 1][..i] == exited[..i];
      h.OnWorkerExit(exited[i]);
      i := i + 1;
    }
    assert exited[..|exited|] == exited;
    h.ReapJobs(pool, terminated);
  }

  /** One event, handled by the object. */
  method ServeOne(h: ResultHandler, s: State, a: Action)
    requires Inv(s) && Enabled(s, a) && Mirrors(h, s)
    modifies h
    ensures Mirrors(h, Do(s, a))
  {
    hide Inv, AJ.ReapAll, AJ.OnAck, AJ.OnReady, AJ.OnHardTimeout, AJ.OnLostTimeout, RC.Acked, RC.Readied, DoJobs;
    TableAfter(s, a);
    match a {
      case Submit(j) => h.Submit(j);
      case NewWorker(p) => h.OnWorkerUp(p);
      case Work(_, _, _) =>
      case Handle(p) =>
        var m := s.credit.workers[p].outbox[0];
        if m.Ack? {
          h.OnAck(m.task, p);
        } else {
          h.OnReady(m.task, Answer(s, m.task));
        }
      case HardTimeout(j) => h.OnHardTimeout(j);
      case LostTimeout(j) => h.OnLostTimeout(j);
      case Reap(exited, terminated) =>
        ReapWorkers(h, exited, s.apply.pool - Elements(exited), terminated * Elements(exited));
    }
  }

  /** Whatever happens in a pool, in whatever order, the tables of a fresh ResultHandler stay
      those of the protocol, and everything promised of them holds. */
  method Serve(h: ResultHandler, start: State, acts: seq<Action>) returns (s: State)
    requires Init(start) && Mirrors(h, start) && CanRun(start, acts)
    modifies h
    ensures s == After(start, acts)
    ensures Mirrors(h, s) && Sound(h, s)
    ensures forall j, x, v :: j in h.jobs && h.jobs[j].outcome == Some(AJ.Returned(x, v)) ==>
              Sent(start, acts, RC.Task(j, None), None) == Some(Result(x, v))
    ensures forall j :: j in h.jobs && h.jobs[j].outcome == Some(AJ.TimeLimitExceeded) ==> HardTimeout(j) in acts
    ensures forall j :: j in h.jobs && h.jobs[j].outcome == Some(AJ.Terminated) ==>
              h.jobs[j].workerPid.Some? && exists a :: a in acts && Kills(a, h.jobs[j].workerPid.value)
  {
    hide Inv, Mirrors, Sound, Enabled, Do;
    InitInv(start);
    s := start;
    var i := 0;
    assert acts[0..] == acts;
    while i < |acts|
      invariant 0 <= i <= |acts|
      invariant Inv(s) && Mirrors(h, s) && CanRun(s, acts[i..])
      invariant After(s, acts[i..]) == After(start, acts)
    {
      assert acts[i..][0] == acts[i] && acts[i..][1..] == acts[i + 1..];
      StepInv(s, acts[i]);
      ServeOne(h, s, acts[i]);
      s := Do(s, acts[i]);
      i := i + 1;
    }
    MirrorSound(h, s);
    LimitsAreEvents(start, acts);
    SoundLimits(h, s, start);
    forall j, x, v | j in h.jobs && h.jobs[j].outcome == Some(AJ.Returned(x, v))
      ensures Sent(start, acts, RC.Task(j, None), None) == Some(Result(x, v))
    {
      SoundReturned(h, s, j);
      SentIsRecorded(start, acts, RC.Task(j, None));
    }
  }

  lemma SoundLimits(h: ResultHandler, s: State, start: State)
    requires Sound(h, s) && Init(start)
    ensures start.apply.timeouts == {} && start.apply.killed == {}
    ensures forall j :: j in h.jobs && h.jobs[j].outcome == Some(AJ.TimeLimitExceeded) ==> j in s.apply.timeouts
    ensures forall j :: j in h.jobs && h.jobs[j].outcome == Some(AJ.Terminated) ==>
              h.jobs[j].workerPid.Some? && h.jobs[j].workerPid.value in s.apply.killed
  {
  }

  lemma SoundReturned(h: ResultHandler, s: State, j: JobId)
    requires Sound(h, s) && j in h.jobs && h.jobs[j].outcome.Some? && h.jobs[j].outcome.value.Returned?
    ensures var o := h.jobs[j].outcome.value; Recorded(s, RC.Task(j, None)) == Some(Result(o.success, o.value))
  {
  }
}
