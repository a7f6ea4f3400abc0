/**
 * Which worker is credited for a READY message (billiard/pool.py).  A worker sends ACK before
 * and READY after each task and counts the tasks it has completed; the result handler notes
 * which worker runs which task and increments that worker's on_ready_counter when a READY
 * comes in, though READY does not say who sent it.
 *
 * Each worker's messages arrive in the order in which they were sent, and messages of
 * different workers in any order.  Worker creation is one step with a fresh pid; a task is
 * handed to one worker only.
 */
module ResultCredit {
  import opened Optional

  type Pid = nat

  /** One task: a job and, for map and imap, the index of a chunk. */
  datatype Task = Task(job: nat, i: Option<nat>)

  // ----- The tables of the result handler -----

  datatype Credit = Credit(
    workerTasks: map<Pid, Task>,
    taskWorkers: map<Task, Pid>,
    counters: map<Pid, nat>)

  /** Drop what is noted for the worker, from both dictionaries. */
  function Forget(c: Credit, pid: Pid): Credit {
    if pid in c.workerTasks
    then c.(workerTasks := c.workerTasks - {pid}, taskWorkers := c.taskWorkers - {c.workerTasks[pid]})
    else c
  }

  /** The credit part of on_ack. */
  function Acked(c: Credit, task: Task, pid: Pid): Credit {
    var d := Forget(c, pid);
    d.(workerTasks := d.workerTasks[pid := task], taskWorkers := d.taskWorkers[task := pid])
  }

  /** The credit part of on_ready. */
  function Readied(c: Credit, task: Task): Credit {
    if task !in c.taskWorkers then c
    else
      var pid := c.taskWorkers[task];
      Credit(c.workerTasks - {pid}, c.taskWorkers - {task},
             if pid in c.counters then c.counters[pid := c.counters[pid] + 1] else c.counters)
  }

  /** A new worker's counter starts at zero. */
  function Hired(c: Credit, pid: Pid): Credit {
    c.(counters := c.counters[pid := 0])
  }

  /** What reaping a worker does: its counter and its note go. */
  function Exited(c: Credit, pid: Pid): Credit {
    var d := Forget(c, pid);
    d.(counters := d.counters - {pid})
  }

  // ----- The protocol -----

  datatype Msg = Ack(task: Task) | Ready(task: Task)

  /** A worker process: the task it is at, how many tasks it has counted as completed, whether it
      has sent a READY that it has not counted yet, whether it lives, its messages that have not
      been handled, and, as history, how many of its READY messages have been. */
  datatype Worker = Worker(
    current: Option<Task>,
    completed: nat,
    uncounted: bool,
    alive: bool,
    outbox: seq<Msg>,
    handled: nat)

  /** `dispatched` is history: which worker was given each task. */
  datatype State = State(credit: Credit, workers: map<Pid, Worker>, dispatched: map<Task, Pid>)

  datatype Action =
    | Create
    | Take(task: Task)     // get a task from the inqueue and send ACK for it
    | Refuse               // NACK: drop the task
    | Finish               // send READY
    | Book                 // ... and then count the task as completed
    | Die
    | Handle               // the result handler takes the worker's next message
    | Reap                 // the pool removes a dead worker

  predicate Enabled(s: State, p: Pid, a: Action) {
    if p !in s.workers then a.Create?
    else
      var w := s.workers[p];
      match a
      case Create => false
      case Take(task) => w.alive && w.current.None? && !w.uncounted && task !in s.dispatched
      case Refuse => w.alive && w.current.Some?
      case Finish => w.alive && w.current.Some?
      case Book => w.alive && w.uncounted
      case Die => w.alive
      case Handle => w.outbox != []
      case Reap => !w.alive && p in s.credit.counters
  }

  function Do(s: State, p: Pid, a: Action): State
    requires Enabled(s, p, a)
  {
    if a.Create? then
      s.(credit := Hired(s.credit, p),
         workers := s.workers[p := Worker(None, 0, false, true, [], 0)])
    else
      var w := s.workers[p];
      match a
      case Take(task) =>
        s.(workers := s.workers[p := w.(current := Some(task), outbox := w.outbox + [Ack(task)])],
           dispatched := s.dispatched[task := p])
      case Refuse => s.(workers := s.workers[p := w.(current := None)])
      case Finish =>
        s.(workers := s.workers[p := w.(current := None, uncounted := true,
                                        outbox := w.outbox + [Ready(w.current.value)])])
      case Book => s.(workers := s.workers[p := w.(completed := w.completed + 1, uncounted := false)])
      case Die => s.(workers := s.workers[p := w.(alive := false)])
      case Handle =>
        var w' := w.(outbox := w.outbox[1..]);
        if w.outbox[0].Ack?
        then s.(credit := Acked(s.credit, w.outbox[0].task, p), workers := s.workers[p := w'])
        else s.(credit := Readied(s.credit, w.outbox[0].task),
                workers := s.workers[p := w'.(handled := w.handled + 1)])
      case Reap => s.(credit := Exited(s.credit, p))
  }

  predicate Init(s: State) {
    s == State(Credit(map[], map[], map[]), map[], map[])
  }

  // ----- The invariant -----

  function Readies(ms: seq<Msg>): nat {
    if ms == [] then 0 else (if ms[0].Ready? then 1 else 0) + Readies(ms[1..])
  }

  lemma {:induction false} ReadiesSnoc(ms: seq<Msg>, m: Msg)
    ensures Readies(ms + [m]) == Readies(ms) + (if m.Ready? then 1 else 0)
  {
    if ms == [] {
      assert ms + [m] == [m];
    } else {
      assert (ms + [m])[1..] == ms[1..] + [m];
      ReadiesSnoc(ms[1..], m);
    }
  }

  lemma {:induction false} ReadiesZero(ms: seq<Msg>)
    ensures Readies(ms) == 0 <==> forall k :: 0 <= k < |ms| ==> !ms[k].Ready?
  {
    if ms != [] {
      ReadiesZero(ms[1..]);
      assert ms == [ms[0]] + ms[1..];
    }
  }

  /** worker_tasks and task_workers are inverse to each other. */
  ghost predicate Linked(c: Credit) {
    && (forall p :: p in c.workerTasks ==> c.workerTasks[p] in c.taskWorkers && c.taskWorkers[c.workerTasks[p]] == p)
    && (forall t :: t in c.taskWorkers ==> c.taskWorkers[t] in c.workerTasks && c.workerTasks[c.taskWorkers[t]] == t)
  }

  /** The task noted for p. */
  function Noted(c: Credit, p: Pid): Option<Task> {
    if p in c.workerTasks then Some(c.workerTasks[p]) else None
  }

  /** In a list of one worker's messages, `noted` being noted for it, each READY follows its
      own ACK; and if the worker is at a task, the ACK of that task came last. */
  ghost predicate Chained(ms: seq<Msg>, noted: Option<Task>, current: Option<Task>) {
    && (forall k :: 0 < k < |ms| && ms[k].Ready? ==> ms[k - 1] == Ack(ms[k].task))
    && (ms != [] && ms[0].Ready? ==> noted == Some(ms[0].task))
    && (current.Some? ==> if ms == [] then noted == current else ms[|ms| - 1] == Ack(current.value))
  }

  /** The worker's task and messages are its own, and it has completed what was handled plus
      what is under way, but for a READY that it has yet to count. */
  ghost predicate Mine(dispatched: map<Task, Pid>, p: Pid, w: Worker) {
    && (forall m :: m in w.outbox ==> m.task in dispatched && dispatched[m.task] == p)
    && (w.current.Some? ==> w.current.value in dispatched && dispatched[w.current.value] == p)
    && w.completed + (if w.uncounted then 1 else 0) == w.handled + Readies(w.outbox)
    && (w.uncounted ==> w.current.None?)
  }

  ghost predicate TablesInv(s: State) {
    && Linked(s.credit)
    && (forall t :: t in s.credit.taskWorkers ==> t in s.dispatched && s.dispatched[t] == s.credit.taskWorkers[t])
    && (forall p :: p in s.credit.counters ==> p in s.workers)
    && (forall p :: p in s.workers && s.workers[p].alive ==> p in s.credit.counters)
  }

  /** A worker that has not been reaped: its counter is right, and its messages will be
      credited to it. */
  ghost predicate Credited(c: Credit, p: Pid, w: Worker) {
    p in c.counters ==> c.counters[p] == w.handled && Chained(w.outbox, Noted(c, p), w.current)
  }

  ghost predicate Inv(s: State) {
    && TablesInv(s)
    && (forall p :: p in s.workers ==> Mine(s.dispatched, p, s.workers[p]))
    && (forall p :: p in s.workers ==> Credited(s.credit, p, s.workers[p]))
  }

  lemma InitInv(s: State)
    requires Init(s)
    ensures Inv(s)
  {
  }

  // ----- Steps -----

  /** Handing out a new task does not affect what was handed out before. */
  lemma MineStays(dispatched: map<Task, Pid>, q: Pid, w: Worker, task: Task, p: Pid)
    requires Mine(dispatched, q, w) && task !in dispatched
    ensures Mine(dispatched[task := p], q, w)
  {
  }

  lemma MineSends(dispatched: map<Task, Pid>, p: Pid, w: Worker, m: Msg, current: Option<Task>)
    requires Mine(dispatched, p, w) && m.task in dispatched && dispatched[m.task] == p
    requires !w.uncounted && if m.Ready? then current.None? else current == Some(m.task)
    ensures Mine(dispatched, p, w.(current := current, outbox := w.outbox + [m], uncounted := m.Ready?))
  {
    ReadiesSnoc(w.outbox, m);
  }

  lemma MineHandled(dispatched: map<Task, Pid>, p: Pid, w: Worker)
    requires Mine(dispatched, p, w) && w.outbox != []
    ensures Mine(dispatched, p, w.(outbox := w.outbox[1..],
                                   handled := w.handled + (if w.outbox[0].Ready? then 1 else 0)))
  {
  }

  lemma StepMine(s: State, p: Pid, a: Action, q: Pid)
    requires Inv(s) && Enabled(s, p, a) && q in Do(s, p, a).workers
    ensures Mine(Do(s, p, a).dispatched, q, Do(s, p, a).workers[q])
  {
    hide TablesInv, Credited;
    if q in s.workers {
      var w := s.workers[q];
      assert Mine(s.dispatched, q, w);
      if a.Take? {
        MineStays(s.dispatched, q, w, a.task, p);
        if q == p {
          MineSends(s.dispatched[a.task := p], p, w, Ack(a.task), Some(a.task));
        }
      } else if q == p && a.Finish? {
        MineSends(s.dispatched, p, w, Ready(w.current.value), None);
      } else if q == p && a.Handle? {
        MineHandled(s.dispatched, p, w);
      }
    }
  }

  lemma LinkedForget(c: Credit, p: Pid)
    requires Linked(c)
    ensures Linked(Forget(c, p)) && Noted(Forget(c, p), p).None?
    ensures forall q :: q != p ==> Noted(Forget(c, p), q) == Noted(c, q)
    ensures forall t :: t in Forget(c, p).taskWorkers ==>
              t in c.taskWorkers && c.taskWorkers[t] == Forget(c, p).taskWorkers[t] != p
    ensures forall t :: t in c.taskWorkers && c.taskWorkers[t] != p ==> t in Forget(c, p).taskWorkers
  {
  }

  /** After an ACK the task is noted for its sender, and nobody else's note has changed. */
  lemma AckedNotes(c: Credit, task: Task, p: Pid)
    requires Linked(c) && (task in c.taskWorkers ==> c.taskWorkers[task] == p)
    ensures Linked(Acked(c, task, p)) && Noted(Acked(c, task, p), p) == Some(task)
    ensures forall q :: q != p ==> Noted(Acked(c, task, p), q) == Noted(c, q)
    ensures forall t :: t in Acked(c, task, p).taskWorkers ==>
              (t == task && Acked(c, task, p).taskWorkers[t] == p) ||
              (t in c.taskWorkers && Acked(c, task, p).taskWorkers[t] == c.taskWorkers[t])
  {
    LinkedForget(c, p);
  }

  /** A READY of p leaves everybody else's note and counter alone; if the task is noted for p,
      exactly p's counter goes up. */
  lemma ReadiedNotes(c: Credit, task: Task, p: Pid)
    requires Linked(c) && (task in c.taskWorkers ==> c.taskWorkers[task] == p)
    ensures var d := Readied(c, task);
            && Linked(d)
            && (forall q :: q != p ==> Noted(d, q) == Noted(c, q))
            && (forall q :: q in d.counters <==> q in c.counters)
            && (forall q :: q in d.counters ==>
                  d.counters[q] == c.counters[q] + (if q == p && task in c.taskWorkers then 1 else 0))
            && (forall t :: t in d.taskWorkers ==> t in c.taskWorkers && d.taskWorkers[t] == c.taskWorkers[t])
            && (task in c.taskWorkers ==> Noted(d, p).None?)
  {
  }

  lemma StepTables(s: State, p: Pid, a: Action)
    requires Inv(s) && Enabled(s, p, a)
    ensures TablesInv(Do(s, p, a))
  {
    hide Mine, Credited;
    if a.Handle? {
      HandleTables(s, p);
    } else {
      hide Acked, Readied;
      if a.Reap? {
        LinkedForget(s.credit, p);
      }
    }
  }

  lemma HandleTables(s: State, p: Pid)
    requires Inv(s) && Enabled(s, p, Handle)
    ensures TablesInv(Do(s, p, Handle))
  {
    hide Mine, Credited, Linked;
    HeadIsMine(s, p);
    var m := s.workers[p].outbox[0];
    if m.Ack? {
      AckedNotes(s.credit, m.task, p);
    } else {
      ReadiedNotes(s.credit, m.task, p);
    }
  }

  /** The next message of p concerns a task of p, whatever the tables say about it. */
  lemma HeadIsMine(s: State, p: Pid)
    requires Inv(s) && p in s.workers && s.workers[p].outbox != []
    ensures var t := s.workers[p].outbox[0].task;
            t in s.dispatched && s.dispatched[t] == p && (t in s.credit.taskWorkers ==> s.credit.taskWorkers[t] == p)
  {
    assert Mine(s.dispatched, p, s.workers[p]);
    assert s.workers[p].outbox[0] in s.workers[p].outbox;
  }

  lemma ChainedTake(ms: seq<Msg>, noted: Option<Task>, task: Task)
    requires Chained(ms, noted, None)
    ensures Chained(ms + [Ack(task)], noted, Some(task))
  {
  }

  lemma ChainedFinish(ms: seq<Msg>, noted: Option<Task>, task: Task)
    requires Chained(ms, noted, Some(task))
    ensures Chained(ms + [Ready(task)], noted, None)
  {
  }

  /** Taking the first message off: an ACK becomes the note, a READY is not followed by
      another READY. */
  lemma ChainedHandle(ms: seq<Msg>, noted: Option<Task>, current: Option<Task>, noted': Option<Task>)
    requires Chained(ms, noted, current) && ms != []
    requires ms[0].Ack? ==> noted' == Some(ms[0].task)
    ensures Chained(ms[1..], noted', current)
  {
    if |ms| > 1 && ms[1].Ready? {
      assert ms[0] == Ack(ms[1].task);
    }
  }

  lemma StepCredited(s: State, p: Pid, a: Action, q: Pid)
    requires Inv(s) && Enabled(s, p, a) && q in Do(s, p, a).workers
    ensures Credited(Do(s, p, a).credit, q, Do(s, p, a).workers[q])
  {
    if q in s.workers {
      var w := s.workers[q];
      assert Credited(s.credit, q, w);
      if a.Handle? {
        HandleCredited(s, p, q);
      } else if a.Reap? {
        LinkedForget(s.credit, p);
      } else if q == p && q in s.credit.counters {
        if a.Take? {
          ChainedTake(w.outbox, Noted(s.credit, q), a.task);
        } else if a.Finish? {
          ChainedFinish(w.outbox, Noted(s.credit, q), w.current.value);
        }
      }
    }
  }

  lemma HandleCredited(s: State, p: Pid, q: Pid)
    requires Inv(s) && Enabled(s, p, Handle) && q in s.workers
    ensures Credited(Do(s, p, Handle).credit, q, Do(s, p, Handle).workers[q])
  {
    hide Linked, Chained, Mine;
    HeadIsMine(s, p);
    var w, c := s.workers[p], s.credit;
    var m := w.outbox[0];
    assert Credited(c, p, w) && Credited(c, q, s.workers[q]);
    if m.Ack? {
      AckedNotes(c, m.task, p);
      if p in c.counters {
        ChainedHandle(w.outbox, Noted(c, p), w.current, Some(m.task));
      }
    } else {
      ReadiedNotes(c, m.task, p);
      if p in c.counters {
        ReadyIsNoted(c, w.outbox, w.current, p);
        ChainedHandle(w.outbox, Noted(c, p), w.current, Noted(Readied(c, m.task), p));
      }
    }
  }

  lemma ReadyIsNoted(c: Credit, ms: seq<Msg>, current: Option<Task>, p: Pid)
    requires Linked(c) && Chained(ms, Noted(c, p), current) && ms != [] && ms[0].Ready?
    ensures ms[0].task in c.taskWorkers
  {
  }

  lemma StepInv(s: State, p: Pid, a: Action)
    requires Inv(s) && Enabled(s, p, a)
    ensures Inv(Do(s, p, a))
  {
    hide TablesInv, Mine, Credited;
    StepTables(s, p, a);
    forall q | q in Do(s, p, a).workers
      ensures Mine(Do(s, p, a).dispatched, q, Do(s, p, a).workers[q])
      ensures Credited(Do(s, p, a).credit, q, Do(s, p, a).workers[q])
    {
      StepMine(s, p, a, q);
      StepCredited(s, p, a, q);
    }
  }

  // ----- Runs -----

  datatype Event = Event(p: Pid, a: Action)

  ghost predicate Run(ss: seq<State>, es: seq<Event>) {
    && |ss| == |es| + 1
    && forall i {:trigger es[i]} :: 0 <= i < |es| ==>
         Enabled(ss[i], es[i].p, es[i].a) && ss[i + 1] == Do(ss[i], es[i].p, es[i].a)
  }

  lemma {:induction false} RunInv(ss: seq<State>, es: seq<Event>, i: nat)
    requires Run(ss, es) && Init(ss[0]) && i < |ss|
    ensures Inv(ss[i])
  {
    hide Inv, Init, Do, Enabled;
    if i == 0 {
      InitInv(ss[0]);
    } else {
      RunInv(ss, es, i - 1);
      StepInv(ss[i - 1], es[i - 1].p, es[i - 1].a);
    }
  }

  /** How many of the first n events are steps `a` of p. */
  ghost function Steps(es: seq<Event>, p: Pid, a: Action, n: nat): nat
    requires n <= |es|
  {
    if n == 0 then 0 else Steps(es, p, a, n - 1) + (if es[n - 1] == Event(p, a) then 1 else 0)
  }

  /** How many READY messages of p are handled by the first n events. */
  ghost function ReadiesHandled(ss: seq<State>, es: seq<Event>, p: Pid, n: nat): nat
    requires n <= |es| && |ss| == |es| + 1
  {
    if n == 0 then 0
    else
      ReadiesHandled(ss, es, p, n - 1) + (if HandlesReady(ss[n - 1], es[n - 1], p) then 1 else 0)
  }

  ghost predicate HandlesReady(s: State, e: Event, p: Pid) {
    e == Event(p, Handle) && p in s.workers && s.workers[p].outbox != [] && s.workers[p].outbox[0].Ready?
  }

  /** The task that p is at: the latest it has taken, if it has neither refused nor finished it. */
  ghost function TaskAt(es: seq<Event>, p: Pid, n: nat): Option<Task>
    requires n <= |es|
  {
    if n == 0 then None
    else if es[n - 1].p != p then TaskAt(es, p, n - 1)
    else
      match es[n - 1].a
      case Take(task) => Some(task)
      case Refuse => None
      case Finish => None
      case _ => TaskAt(es, p, n - 1)
  }

  lemma StepWorker(s: State, e: Event, p: Pid)
    requires Enabled(s, e.p, e.a) && p in Do(s, e.p, e.a).workers
    ensures p !in s.workers ==>
              e == Event(p, Create) && Do(s, e.p, e.a).workers[p] == Worker(None, 0, false, true, [], 0)
    ensures p in s.workers ==>
              var w, w' := s.workers[p], Do(s, e.p, e.a).workers[p];
              && w'.completed == w.completed + (if e == Event(p, Book) then 1 else 0)
              && w'.handled == w.handled + (if HandlesReady(s, e, p) then 1 else 0)
              && (w'.alive <==> w.alive && e != Event(p, Die))
              && w'.current == (if e.p != p then w.current
                                else match e.a
                                     case Take(task) => Some(task)
                                     case Refuse => None
                                     case Finish => None
                                     case _ => w.current)
  {
    hide Acked, Readied, Exited;
  }

  lemma {:induction false} NoWorkerNoEvent(ss: seq<State>, es: seq<Event>, n: nat, p: Pid)
    requires Run(ss, es) && Init(ss[0]) && n < |ss| && p !in ss[n].workers
    ensures Steps(es, p, Book, n) == 0 && Steps(es, p, Die, n) == 0
    ensures ReadiesHandled(ss, es, p, n) == 0 && TaskAt(es, p, n) == None
  {
    if n > 0 {
      var s, e := ss[n - 1], es[n - 1];
      assert Enabled(s, e.p, e.a) && ss[n] == Do(s, e.p, e.a);
      NoWorkerNoEvent(ss, es, n - 1, p);
    }
  }

  /** In every run a worker is what its events have made it: it has counted the tasks it has booked,
      lives unless it has died, and is at the task it has taken and not left; and as many of its
      READY messages are handled as the handler has taken. */
  lemma {:induction false} WorkerIsEvents(ss: seq<State>, es: seq<Event>, n: nat, p: Pid)
    requires Run(ss, es) && Init(ss[0]) && n < |ss| && p in ss[n].workers
    ensures var w := ss[n].workers[p];
            && w.completed == Steps(es, p, Book, n)
            && (w.alive <==> Steps(es, p, Die, n) == 0)
            && w.handled == ReadiesHandled(ss, es, p, n)
            && w.current == TaskAt(es, p, n)
  {
    hide Do, HandlesReady;
    var s, e := ss[n - 1], es[n - 1];
    assert Enabled(s, e.p, e.a) && ss[n] == Do(s, e.p, e.a);
    StepWorker(s, e, p);
    if p in s.workers {
      WorkerIsEvents(ss, es, n - 1, p);
    } else {
      NoWorkerNoEvent(ss, es, n - 1, p);
      assert !HandlesReady(s, e, p) by {
        CreateHandlesNothing(s, p);
      }
    }
  }

  lemma CreateHandlesNothing(s: State, p: Pid)
    ensures !HandlesReady(s, Event(p, Create), p)
  {
  }

  /** A living worker can always go on: count the task it has sent, finish or refuse the one it is
      at, or else take any new one. */
  lemma WorkerGoesOn(s: State, p: Pid, task: Task)
    requires p in s.workers && s.workers[p].alive && Mine(s.dispatched, p, s.workers[p])
    requires task !in s.dispatched
    ensures var w := s.workers[p];
            if w.uncounted then Enabled(s, p, Book)
            else if w.current.Some? then Enabled(s, p, Finish) && Enabled(s, p, Refuse)
            else Enabled(s, p, Take(task))
    ensures Enabled(s, p, Die)
  {
  }

  /** In every run, the counter of every worker that has not been reaped is the number of its
      READY messages handled so far. */
  lemma CounterExact(ss: seq<State>, es: seq<Event>, i: nat, p: Pid)
    requires Run(ss, es) && Init(ss[0]) && i < |ss| && p in ss[i].credit.counters
    ensures p in ss[i].workers
    ensures ss[i].credit.counters[p] == ss[i].workers[p].handled == ReadiesHandled(ss, es, p, i)
  {
    RunInv(ss, es, i);
    WorkerIsEvents(ss, es, i, p);
    assert Credited(ss[i].credit, p, ss[i].workers[p]);
  }

  /** What _ensure_messages_consumed compares. */
  ghost predicate FindsConsumed(s: State, p: Pid)
    requires p in s.credit.counters && p in s.workers
  {
    s.credit.counters[p] >= s.workers[p].completed
  }

  ghost predicate AllHandled(w: Worker) {
    forall k :: 0 <= k < |w.outbox| ==> !w.outbox[k].Ready?
  }

  /** _ensure_messages_consumed finds its condition true exactly when no more READY messages of
      the worker are unhandled than it has sent and not counted, which is at most one. */
  lemma ConsumedUpTo(ss: seq<State>, es: seq<Event>, i: nat, p: Pid)
    requires Run(ss, es) && Init(ss[0]) && i < |ss| && p in ss[i].credit.counters
    ensures p in ss[i].workers
    ensures FindsConsumed(ss[i], p) <==>
            Readies(ss[i].workers[p].outbox) <= if ss[i].workers[p].uncounted then 1 else 0
  {
    RunInv(ss, es, i);
    CounterExact(ss, es, i, p);
    assert Mine(ss[i].dispatched, p, ss[i].workers[p]);
  }

  /** So it is right for every worker, counted up or not, exactly unless the worker was stopped
      between sending a READY and counting it, and that READY is the only one unhandled. */
  lemma ConsumedIffCounted(ss: seq<State>, es: seq<Event>, i: nat, p: Pid)
    requires Run(ss, es) && Init(ss[0]) && i < |ss| && p in ss[i].credit.counters
    ensures p in ss[i].workers
    ensures (FindsConsumed(ss[i], p) <==> AllHandled(ss[i].workers[p])) <==>
            !(ss[i].workers[p].uncounted && Readies(ss[i].workers[p].outbox) == 1)
    ensures !ss[i].workers[p].uncounted ==> (FindsConsumed(ss[i], p) <==> AllHandled(ss[i].workers[p]))
  {
    ConsumedUpTo(ss, es, i, p);
    ReadiesZero(ss[i].workers[p].outbox);
  }

  /** A run in which it is wrong: the worker sends its READY and is stopped at once. */
  lemma StoppedBeforeCounting()
    ensures exists ss: seq<State>, es: seq<Event> ::
              && Run(ss, es) && Init(ss[0])
              && var s := ss[|es|];
                 0 in s.credit.counters && 0 in s.workers && FindsConsumed(s, 0) && !AllHandled(s.workers[0])
  {
    var task := Task(0, None);
    var s0 := State(Credit(map[], map[], map[]), map[], map[]);
    var s1 := Do(s0, 0, Create);
    var s2 := Do(s1, 0, Take(task));
    var s3 := Do(s2, 0, Finish);
    var ss, es := [s0, s1, s2, s3], [Event(0, Create), Event(0, Take(task)), Event(0, Finish)];
    assert Run(ss, es);
    assert s3.workers[0].outbox == [Ack(task), Ready(task)];
    assert s3.workers[0].outbox[1].Ready?;
    assert ss[|es|] == s3;
  }
}
