/**
 * The joinable queue of billiard/queues.py: `put`, `task_done` and `join` on top of the
 * condition variable of module ConditionVariable and the semaphore of unfinished tasks.
 *
 * A state holds a whole state of the condition variable, and a step of a thread is one step
 * of the condition variable, or one operation on the queue's own semaphore made while
 * owning the condition's lock.  What lies between `put` and `get` is the business of module
 * FeederQueue: here an item can be received as soon as it has been appended.
 */
module JoinableQueue {
  import CV = ConditionVariable
  import opened Optional
  import opened Tally

  type Tid = CV.Tid

  datatype Op = Put | TaskDone | Join

  /** Where a thread stands. */
  datatype PC =
    | Idle
    | Called(op: Op)                   // about to take the lock of the condition
    | Locked(op: Op)                   // owns it; about to do the first thing under it
    | Appended                         // put: has appended, is to count the task
    | Decremented                      // task_done: has acquired, is to test for zero
    | Notifying                        // task_done: in cond.notify_all()
    | Sleeping                         // join: in cond.wait()
    | Leaving(op: Op, raised: bool)    // about to release the lock and return, or raise

  /** History: the items `appended` and received (`gets`), the `calls` of task_done and those
      that have counted down (`dones`); and which calls of join have seen the count at zero. */
  datatype State = State(
    cond: CV.State,
    pcs: map<Tid, PC>,
    unfinished: nat,
    appended: nat,
    gets: nat,
    calls: nat,
    dones: nat,
    sawZero: set<Tid>)

  datatype Action =
    | Call(op: Op)
    | Enter
    | Work             // the next operation of the queue under the lock
    | Advance          // the next instruction of notify_all or wait
    | Leave
    | Get

  predicate Joining(pc: PC) {
    match pc
    case Called(op) => op.Join?
    case Locked(op) => op.Join?
    case Sleeping => true
    case Leaving(op, _) => op.Join?
    case _ => false
  }

  /** Called task_done and has not counted down yet. */
  predicate Due(pc: PC) {
    pc == Called(TaskDone) || pc == Locked(TaskDone)
  }

  // ----- Steps -----

  /** What the step does to the condition variable. */
  function CondAction(s: State, t: Tid, a: Action): Option<CV.Action>
    requires t in s.pcs
  {
    match a
    case Enter => Some(CV.Lock)
    case Leave => Some(CV.Unlock)
    case Advance => Some(CV.Advance)
    case Work =>
      if s.pcs[t].Decremented? && s.unfinished == 0 then Some(CV.Notify(true))
      else if s.pcs[t] == Locked(Join) && s.unfinished > 0 then Some(CV.Wait)
      else None
    case _ => None
  }

  ghost predicate Enabled(s: State, t: Tid, a: Action) {
    && t in s.pcs
    && (var ca := CondAction(s, t, a); ca.Some? ==> CV.Enabled(s.cond, t, ca.value))
    && match a
       case Call(_) => s.pcs[t].Idle?
       case Enter => s.pcs[t].Called?
       case Work => s.pcs[t].Locked? || s.pcs[t].Appended? || s.pcs[t].Decremented?
       case Advance => s.pcs[t].Notifying? || s.pcs[t].Sleeping?
       case Leave => s.pcs[t].Leaving?
       case Get => s.pcs[t].Idle? && s.gets < s.appended
  }

  ghost function DoCond(s: State, t: Tid, a: Action): CV.State
    requires Enabled(s, t, a)
  {
    var ca := CondAction(s, t, a);
    if ca.Some? then CV.Do(s.cond, t, ca.value) else s.cond
  }

  ghost predicate HasReturned(c: CV.State, t: Tid) {
    t in c.pcs && c.pcs[t].Owning?
  }

  ghost function NextPC(s: State, t: Tid, a: Action): PC
    requires Enabled(s, t, a)
  {
    match a
    case Call(op) => Called(op)
    case Enter => Locked(s.pcs[t].op)
    case Leave => Idle
    case Get => Idle
    case Advance =>
      if !HasReturned(DoCond(s, t, a), t) then s.pcs[t]
      else Leaving(if s.pcs[t].Sleeping? then Join else TaskDone, false)
    case Work =>
      match s.pcs[t]
      case Appended => Leaving(Put, false)
      case Decremented => if s.unfinished == 0 then Notifying else Leaving(TaskDone, false)
      case Locked(op) =>
        match op
        case Put => Appended
        case TaskDone => if s.unfinished == 0 then Leaving(TaskDone, true) else Decremented
        case Join => if s.unfinished == 0 then Leaving(Join, false) else Sleeping
  }

  /** The queue's own semaphore and the history of what has happened. */
  ghost function Counted(s: State, t: Tid, a: Action): State
    requires Enabled(s, t, a)
  {
    match a
    case Call(op) =>
      s.(calls := if op.TaskDone? then s.calls + 1 else s.calls,
         sawZero := if op.Join? then s.sawZero - {t} else s.sawZero)
    case Get => s.(gets := s.gets + 1)
    case Work =>
      (match s.pcs[t]
       case Appended => s.(unfinished := s.unfinished + 1)
       case Locked(op) =>
         (match op
          case Put => s.(appended := s.appended + 1)
          case TaskDone => if s.unfinished == 0 then s else s.(unfinished := s.unfinished - 1, dones := s.dones + 1)
          case Join => s)
       case _ => s)
    case _ => s
  }

  ghost function Do(s: State, t: Tid, a: Action): State
    requires Enabled(s, t, a)
  {
    var s' := Counted(s, t, a).(cond := DoCond(s, t, a), pcs := s.pcs[t := NextPC(s, t, a)]);
    if s'.unfinished == 0 then s'.(sawZero := s'.sawZero + Matching(s'.pcs, Joining)) else s'
  }

  ghost predicate Init(s: State) {
    && CV.Init(s.cond)
    && (forall t :: t in s.cond.pcs <==> t in s.pcs)
    && (forall t :: t in s.pcs ==> s.pcs[t].Idle?)
    && s.unfinished == 0 && s.appended == 0 && s.gets == 0 && s.calls == 0 && s.dones == 0
  }

  // ----- The invariant -----

  /** Where a thread of the queue stands in the condition variable. */
  ghost predicate Agree(pc: PC, c: CV.PC) {
    match pc
    case Idle => c.Outside?
    case Called(_) => c.Outside?
    case Notifying => CV.Notifying(c) && CV.InNotifyAll(c)
    case Sleeping => c.Announced? || c.Asleep? || c.Woken? || c.Relocking?
    case _ => c.Owning?
  }

  ghost predicate Agreement(s: State) {
    && (forall t :: t in s.cond.pcs <==> t in s.pcs)
    && (forall t :: t in s.pcs && t in s.cond.pcs ==> Agree(s.pcs[t], s.cond.pcs[t]))
  }

  /** The lock's owner stands at `pc`. */
  ghost predicate OwnerAt(s: State, pc: PC) {
    s.cond.owner.Some? && s.cond.owner.value in s.pcs && s.pcs[s.cond.owner.value] == pc
  }

  /** The unfinished tasks are those put and not done, but for one whose put is about to
      count it. */
  ghost predicate Counting(s: State) {
    s.unfinished + s.dones + (if OwnerAt(s, Appended) then 1 else 0) == s.appended
  }

  /** notify_all is only under way at zero, and nobody is asleep at zero unless it is, or is
      about to be. */
  ghost predicate WakeUps(s: State) {
    && (OwnerAt(s, Notifying) ==> s.unfinished == 0)
    && (s.unfinished == 0 && !OwnerAt(s, Decremented) && !OwnerAt(s, Notifying) ==> CV.NobodyAsleep(s.cond))
  }

  /** A call of join that has got past its test, or been woken, has seen the count at zero. */
  ghost predicate SeenZero(s: State, t: Tid) {
    t in s.pcs && t in s.cond.pcs && Joining(s.pcs[t]) &&
    (s.unfinished == 0 || s.pcs[t].Leaving? ||
     (s.pcs[t].Sleeping? && (s.cond.pcs[t].Woken? || s.cond.pcs[t].Relocking?)))
    ==> t in s.sawZero
  }

  ghost predicate Inv(s: State) {
    && CV.Inv(s.cond)
    && Agreement(s)
    && Counting(s)
    && WakeUps(s)
    && (forall t :: t in s.pcs ==> SeenZero(s, t))
    && s.gets <= s.appended
    && s.dones + Count(s.pcs, Due) <= s.calls
  }

  lemma InitInv(s: State)
    requires Init(s)
    ensures Inv(s)
  {
    hide CV.Accounting;
    CV.InitInv(s.cond);
    assert CV.Inv(s.cond);
    CountWitness(s.pcs, Due);
    assert Count(s.pcs, Due) == 0;
    assert CV.NobodyAsleep(s.cond);
  }

  // ----- Steps keep the invariant -----

  lemma StepCond(s: State, t: Tid, a: Action)
    requires CV.Inv(s.cond) && Enabled(s, t, a)
    ensures CV.Inv(Do(s, t, a).cond)
  {
    hide CV.Inv, CV.Enabled, CV.Do;
    var ca := CondAction(s, t, a);
    if ca.Some? {
      CV.StepInv(s.cond, t, ca.value, CV.Do(s.cond, t, ca.value));
    }
  }

  /** The step moves only its own thread. */
  lemma StepFrame(s: State, t: Tid, a: Action)
    requires Agreement(s) && Enabled(s, t, a)
    ensures var s' := Do(s, t, a);
            && s'.pcs == s.pcs[t := s'.pcs[t]]
            && t in s'.cond.pcs
            && s'.cond.pcs == s.cond.pcs[t := s'.cond.pcs[t]]
  {
    hide CV.Enabled, CV.Do, NextPC, Counted;
    var ca := CondAction(s, t, a);
    if ca.None? {
      assert s.cond.pcs == s.cond.pcs[t := s.cond.pcs[t]];
    } else {
      CV.StepCounts(s.cond, t, ca.value, CV.Do(s.cond, t, ca.value));
    }
  }

  lemma StepAgreement(s: State, t: Tid, a: Action)
    requires CV.Inv(s.cond) && Agreement(s) && Enabled(s, t, a)
    ensures Agreement(Do(s, t, a))
  {
    hide CV.Inv, CV.Enabled, CV.Do, Agree;
    StepFrame(s, t, a);
    if a.Advance? {
      AdvanceAgrees(s, t);
    } else {
      OtherAgrees(s, t, a);
    }
  }

  /** One step of notify_all or wait inside the condition variable. */
  lemma CondAdvances(c: CV.State, t: Tid)
    requires CV.Inv(c) && CV.Enabled(c, t, CV.Advance)
    ensures var c' := CV.Do(c, t, CV.Advance);
            && t in c'.pcs
            && (CV.Notifying(c.pcs[t]) && CV.InNotifyAll(c.pcs[t]) && !c'.pcs[t].Owning? ==>
                  CV.Notifying(c'.pcs[t]) && CV.InNotifyAll(c'.pcs[t]))
            && (Agree(Sleeping, c.pcs[t]) && !c'.pcs[t].Owning? ==> Agree(Sleeping, c'.pcs[t]))
  {
    hide CV.Inv, CV.Phase;
    var c' := CV.Do(c, t, CV.Advance);
    CV.StepInv(c, t, CV.Advance, c');
    CV.QuietCounts(c');
  }

  lemma AdvanceAgrees(s: State, t: Tid)
    requires CV.Inv(s.cond) && Agreement(s) && Enabled(s, t, Advance)
    ensures var s' := Do(s, t, Advance); t in s'.cond.pcs && Agree(s'.pcs[t], s'.cond.pcs[t])
  {
    hide CV.Inv, CV.Enabled, CV.Do;
    assert Agree(s.pcs[t], s.cond.pcs[t]);
    CondAdvances(s.cond, t);
  }

  lemma OtherAgrees(s: State, t: Tid, a: Action)
    requires CV.Inv(s.cond) && Agreement(s) && Enabled(s, t, a) && !a.Advance?
    ensures var s' := Do(s, t, a); t in s'.cond.pcs && Agree(s'.pcs[t], s'.cond.pcs[t])
  {
    hide CV.Inv, CV.Enabled, CV.Do;
    assert Agree(s.pcs[t], s.cond.pcs[t]);
    var ca := CondAction(s, t, a);
    if ca.Some? {
      CondActs(s.cond, t, ca.value);
    }
  }

  /** The other steps of the condition variable that the queue takes. */
  lemma CondActs(c: CV.State, t: Tid, a: CV.Action)
    requires CV.Inv(c) && CV.Enabled(c, t, a)
    ensures var c' := CV.Do(c, t, a);
            && t in c'.pcs
            && (a.Lock? ==> c'.pcs[t].Owning?)
            && (a.Unlock? ==> c'.pcs[t].Outside?)
            && (a.Wait? ==> c'.pcs[t].Announced?)
            && (a == CV.Notify(true) ==> CV.Notifying(c'.pcs[t]) && CV.InNotifyAll(c'.pcs[t]))
  {
    hide CV.Inv, CV.Phase, CV.DoAdvance;
    var c' := CV.Do(c, t, a);
    CV.StepCounts(c, t, a, c');
    CV.StepInv(c, t, a, c');
    CV.QuietCounts(c');
  }

  /** The owner stays, or gives up the lock, or `t` takes the free lock. */
  predicate OwnerMoves(before: Option<Tid>, after: Option<Tid>, t: Tid) {
    after == before || after == None || (before == None && after == Some(t))
  }

  /** Who owns the lock after the step. */
  lemma StepOwner(s: State, t: Tid, a: Action)
    requires CV.Inv(s.cond) && Agreement(s) && Enabled(s, t, a)
    ensures var s' := Do(s, t, a);
            && (s.cond.owner == Some(t) <==> CV.OwnsLock(s.cond.pcs[t]))
            && (s'.cond.owner == Some(t) <==> CV.OwnsLock(s'.cond.pcs[t]))
            && (CV.OwnsLock(s.cond.pcs[t]) || CV.OwnsLock(s'.cond.pcs[t]) || s'.cond.owner == s.cond.owner)
            && OwnerMoves(s.cond.owner, s'.cond.owner, t)
  {
    hide CV.Accounting, CV.Enabled, CV.Do;
    StepCond(s, t, a);
    StepFrame(s, t, a);
    StepOwnerCond(s, t, a);
  }

  lemma StepOwnerCond(s: State, t: Tid, a: Action)
    requires Enabled(s, t, a)
    ensures var s' := Do(s, t, a);
            OwnerMoves(s.cond.owner, s'.cond.owner, t)
  {
    hide CV.Accounting, Counted, NextPC;
  }

  /** What a step does to the count is balanced by where its thread stands. */
  lemma StepBalance(s: State, t: Tid, a: Action)
    requires Enabled(s, t, a)
    ensures var s' := Counted(s, t, a);
            s'.unfinished + s'.dones + (if NextPC(s, t, a).Appended? then 1 else 0) - s'.appended ==
            s.unfinished + s.dones + (if s.pcs[t].Appended? then 1 else 0) - s.appended
  {
    hide CV.Enabled, CV.Do;
  }

  lemma StepCounting(s: State, t: Tid, a: Action)
    requires Inv(s) && Enabled(s, t, a)
    ensures Counting(Do(s, t, a))
  {
    hide CV.Inv, CV.Enabled, CV.Do, CV.NobodyAsleep, DoCond, WakeUps, SeenZero, Count, Counted, NextPC;
    StepBalance(s, t, a);
    StepFrame(s, t, a);
    StepOwner(s, t, a);
    StepAgreement(s, t, a);
    var s' := Do(s, t, a);
    assert Agree(s.pcs[t], s.cond.pcs[t]) && Agree(s'.pcs[t], s'.cond.pcs[t]);
    hide Agreement;
  }

  lemma StepCalls(s: State, t: Tid, a: Action)
    requires Inv(s) && Enabled(s, t, a)
    ensures var s' := Do(s, t, a); s'.gets <= s'.appended && s'.dones + Count(s'.pcs, Due) <= s'.calls
  {
    hide CV.Inv, CV.Enabled, CV.Do, CV.NobodyAsleep, Count;
    StepFrame(s, t, a);
    CountUpdate(s.pcs, Due, t, Do(s, t, a).pcs[t]);
  }

  /** A thread is only woken while notify_all is under way, that is, at zero. */
  lemma WokenAtZero(s: State)
    requires CV.Inv(s.cond) && Agreement(s) && WakeUps(s) && s.cond.waitSem > 0
    ensures s.unfinished == 0
  {
    assert CV.Phase(s.cond) != CV.Outside;
    var u := s.cond.owner.value;
    assert Agree(s.pcs[u], s.cond.pcs[u]);
    assert OwnerAt(s, Notifying);
  }

  /** Only the lock's owner changes the count of unfinished tasks. */
  lemma StepUnfinished(s: State, t: Tid, a: Action)
    requires CV.Inv(s.cond) && Agreement(s) && Enabled(s, t, a)
    ensures Do(s, t, a).unfinished != s.unfinished ==>
              && s.cond.owner == Some(t) && Do(s, t, a).cond.owner == Some(t)
              && (s.pcs[t].Appended? || s.pcs[t] == Locked(TaskDone))
  {
    hide CV.Accounting, CV.Enabled, CV.Do;
    assert Agree(s.pcs[t], s.cond.pcs[t]);
  }

  lemma StepNotifyAtZero(s: State, t: Tid, a: Action)
    requires Inv(s) && Enabled(s, t, a)
    ensures OwnerAt(Do(s, t, a), Notifying) ==> Do(s, t, a).unfinished == 0
  {
    hide CV.Inv, CV.Enabled, CV.Do, CV.NobodyAsleep, Counting, SeenZero;
    StepFrame(s, t, a);
    StepOwner(s, t, a);
    StepAgreement(s, t, a);
    StepUnfinished(s, t, a);
    assert Agree(s.pcs[t], s.cond.pcs[t]);
  }

  /** The step after which notify_all has returned. */
  lemma NotifyAllDone(s: State, t: Tid)
    requires Inv(s) && Enabled(s, t, Advance) && s.pcs[t].Notifying? && !Do(s, t, Advance).pcs[t].Notifying?
    ensures CV.NobodyAsleep(Do(s, t, Advance).cond)
  {
    hide CV.Inv, CV.Enabled, CV.Do, CV.NobodyAsleep;
    assert Agree(s.pcs[t], s.cond.pcs[t]);
    CV.NotifyAllReturns(s.cond, t, Do(s, t, Advance).cond);
  }

  /** Nobody falls asleep at zero. */
  lemma AwakeStaysAwake(s: State, t: Tid, a: Action)
    requires Agreement(s) && Enabled(s, t, a) && CV.NobodyAsleep(s.cond) && s.unfinished == 0
    ensures CV.NobodyAsleep(Do(s, t, a).cond)
  {
    hide Counted;
    StepFrame(s, t, a);
    assert Agree(s.pcs[t], s.cond.pcs[t]);
  }

  lemma StepWakeUps(s: State, t: Tid, a: Action)
    requires Inv(s) && Enabled(s, t, a)
    ensures WakeUps(Do(s, t, a))
  {
    hide CV.Inv, CV.Enabled, CV.Do, CV.NobodyAsleep, Counting, SeenZero;
    StepNotifyAtZero(s, t, a);
    StepFrame(s, t, a);
    StepOwner(s, t, a);
    StepAgreement(s, t, a);
    StepUnfinished(s, t, a);
    assert Agree(s.pcs[t], s.cond.pcs[t]);
    var s' := Do(s, t, a);
    if s'.unfinished == 0 && !OwnerAt(s', Decremented) && !OwnerAt(s', Notifying) {
      if CV.NobodyAsleep(s.cond) {
        AwakeStaysAwake(s, t, a);
      } else {
        NotifyAllDone(s, t);
      }
    }
  }

  lemma StepSeenZero(s: State, t: Tid, a: Action, q: Tid)
    requires Inv(s) && Enabled(s, t, a) && q in s.pcs
    ensures SeenZero(Do(s, t, a), q)
  {
    hide CV.Inv, CV.NobodyAsleep, Counting, WakeUps;
    StepFrame(s, t, a);
    assert SeenZero(s, q);
    assert Agree(s.pcs[t], s.cond.pcs[t]);
    if s.cond.waitSem > 0 {
      WokenAtZero(s);
    }
  }

  lemma StepInv(s: State, t: Tid, a: Action)
    requires Inv(s) && Enabled(s, t, a)
    ensures Inv(Do(s, t, a))
  {
    hide CV.Inv, CV.Enabled, Do, Counting, WakeUps, SeenZero, Agreement;
    StepCond(s, t, a);
    StepAgreement(s, t, a);
    StepCounting(s, t, a);
    StepWakeUps(s, t, a);
    StepCalls(s, t, a);
    forall q | q in Do(s, t, a).pcs
      ensures SeenZero(Do(s, t, a), q)
    {
      StepFrame(s, t, a);
      StepSeenZero(s, t, a, q);
    }
  }

  // ----- Runs -----

  datatype Event = Event(t: Tid, a: Action)

  ghost predicate Run(ss: seq<State>, es: seq<Event>) {
    && |ss| == |es| + 1
    && forall i {:trigger es[i]} :: 0 <= i < |es| ==>
         Enabled(ss[i], es[i].t, es[i].a) && ss[i + 1] == Do(ss[i], es[i].t, es[i].a)
  }

  lemma {:induction false} RunInv(ss: seq<State>, es: seq<Event>, i: nat)
    requires Run(ss, es) && Init(ss[0]) && i < |ss|
    ensures Inv(ss[i])
  {
    hide Inv, Init, Do, Enabled;
    if i == 0 {
      InitInv(ss[0]);
    } else {
      RunInv(ss, es, i - 1);
      StepInv(ss[i - 1], es[i - 1].t, es[i - 1].a);
    }
  }

  /** In every run, whenever no put is between appending its item and counting it, the
      unfinished count is the number of puts minus the number of task_dones. */
  lemma UnfinishedExact(ss: seq<State>, es: seq<Event>, i: nat)
    requires Run(ss, es) && Init(ss[0]) && i < |ss|
    requires !OwnerAt(ss[i], Appended)
    ensures ss[i].unfinished == ss[i].appended - ss[i].dones
  {
    RunInv(ss, es, i);
  }

  /** A put that has appended its item, and a task_done that has counted down. */
  predicate HasPut(pc: PC) { pc.Appended? || (pc.Leaving? && pc.op.Put?) }

  predicate HasDone(pc: PC) { pc.Decremented? || pc.Notifying? || pc == Leaving(TaskDone, false) }

  /** Only task_done raises. */
  predicate RaisesRightly(pc: PC) { pc.Leaving? && pc.raised ==> pc.op.TaskDone? }

  /** How many of the first n steps are returns of `op`, with or without an exception. */
  ghost function Returned(ss: seq<State>, es: seq<Event>, op: Op, raised: bool, n: nat): nat
    requires n <= |es| && |ss| == |es| + 1
  {
    if n == 0 then 0
    else
      var s, e := ss[n - 1], es[n - 1];
      Returned(ss, es, op, raised, n - 1)
      + (if e.a.Leave? && e.t in s.pcs && s.pcs[e.t] == Leaving(op, raised) then 1 else 0)
  }

  /** How many of the first n steps are `a`. */
  ghost function Taken(es: seq<Event>, a: Action, n: nat): nat
    requires n <= |es|
  {
    if n == 0 then 0 else Taken(es, a, n - 1) + (if es[n - 1].a == a then 1 else 0)
  }

  /** What a step adds to the history is balanced by where its thread stands. */
  lemma StepHistory(s: State, t: Tid, a: Action)
    requires Enabled(s, t, a) && RaisesRightly(s.pcs[t])
    ensures var s' := Do(s, t, a);
            && t in s'.pcs && s'.pcs == s.pcs[t := s'.pcs[t]] && RaisesRightly(s'.pcs[t])
            && s'.appended - s.appended == (if HasPut(s'.pcs[t]) then 1 else 0) - (if HasPut(s.pcs[t]) then 1 else 0)
                 + (if a.Leave? && s.pcs[t] == Leaving(Put, false) then 1 else 0)
            && s'.dones - s.dones == (if HasDone(s'.pcs[t]) then 1 else 0) - (if HasDone(s.pcs[t]) then 1 else 0)
                 + (if a.Leave? && s.pcs[t] == Leaving(TaskDone, false) then 1 else 0)
            && s'.calls == s.calls + (if a == Call(TaskDone) then 1 else 0)
            && s'.gets == s.gets + (if a.Get? then 1 else 0)
  {
    hide CV.Enabled, CV.Do;
  }

  /** The history fields tell what has happened: items appended and tasks done are the calls of
      put and task_done that have returned, and those about to. */
  lemma {:induction false} HistoryIsEvents(ss: seq<State>, es: seq<Event>, n: nat)
    requires Run(ss, es) && Init(ss[0]) && n < |ss|
    ensures ss[n].appended == Returned(ss, es, Put, false, n) + Count(ss[n].pcs, HasPut)
    ensures ss[n].dones == Returned(ss, es, TaskDone, false, n) + Count(ss[n].pcs, HasDone)
    ensures ss[n].calls == Taken(es, Call(TaskDone), n) && ss[n].gets == Taken(es, Get, n)
    ensures forall t :: t in ss[n].pcs ==> RaisesRightly(ss[n].pcs[t])
  {
    hide Count, Do, Enabled, CV.Init;
    if n == 0 {
      CountWitness(ss[0].pcs, HasPut);
      CountWitness(ss[0].pcs, HasDone);
    } else {
      var s, e := ss[n - 1], es[n - 1];
      HistoryIsEvents(ss, es, n - 1);
      assert Enabled(s, e.t, e.a) && ss[n] == Do(s, e.t, e.a);
      MoverExists(s, e.t, e.a);
      StepHistory(s, e.t, e.a);
      CountUpdate(s.pcs, HasPut, e.t, ss[n].pcs[e.t]);
      CountUpdate(s.pcs, HasDone, e.t, ss[n].pcs[e.t]);
    }
  }

  lemma MoverExists(s: State, t: Tid, a: Action)
    requires Enabled(s, t, a)
    ensures t in s.pcs
  {
  }

  /** In every run, whenever nobody is inside put or task_done, the unfinished count is the number
      of calls of put that have returned minus the calls of task_done that have returned without
      an exception. */
  lemma UnfinishedIsPutsMinusDones(ss: seq<State>, es: seq<Event>, n: nat)
    requires Run(ss, es) && Init(ss[0]) && n < |ss|
    requires forall t :: t in ss[n].pcs ==> ss[n].pcs[t].Idle? || Joining(ss[n].pcs[t])
    ensures ss[n].unfinished == Returned(ss, es, Put, false, n) - Returned(ss, es, TaskDone, false, n)
  {
    hide Count, CV.Inv, WakeUps, SeenZero, Init, Do, Enabled;
    HistoryIsEvents(ss, es, n);
    RunInv(ss, es, n);
    CountWitness(ss[n].pcs, HasPut);
    CountWitness(ss[n].pcs, HasDone);
  }

  /** Any call can be made by a thread that is not inside one. */
  lemma CallsAdmitted(s: State, t: Tid, op: Op)
    requires t in s.pcs && s.pcs[t].Idle?
    ensures Enabled(s, t, Call(op)) && (Enabled(s, t, Get) <==> s.gets < s.appended)
  {
  }

  /** No deadlock: whenever a thread is inside a call, other than a join that sleeps, some thread
      can take a step of a call it has begun. */
  lemma SomebodyMoves(s: State, t: Tid)
    requires Inv(s) && t in s.pcs && !s.pcs[t].Idle?
    requires s.pcs[t].Sleeping? ==> t in s.cond.pcs && !s.cond.pcs[t].Asleep?
    ensures exists u: Tid, a: Action :: !a.Call? && !a.Get? && Enabled(s, u, a)
  {
    hide WakeUps, SeenZero, Counting;
    var u := if s.cond.owner.Some? then s.cond.owner.value else t;
    if s.cond.owner.Some? {
      OwnerInside(s);
    }
    assert Agree(s.pcs[u], s.cond.pcs[u]) && Agree(s.pcs[t], s.cond.pcs[t]);
    if s.pcs[u].Notifying? && !CV.Enabled(s.cond, u, CV.Advance) {
      CV.NotifierNotStuck(s.cond, u);
      var w :| w in s.cond.pcs && (s.cond.pcs[w].Asleep? || s.cond.pcs[w].Woken?) && CV.Enabled(s.cond, w, CV.Advance);
      assert Agree(s.pcs[w], s.cond.pcs[w]);
      assert Enabled(s, w, Advance);
    } else if s.pcs[u].Called? {
      assert Enabled(s, u, Enter);
    } else if s.pcs[u].Leaving? {
      assert Enabled(s, u, Leave);
    } else if s.pcs[u].Notifying? || s.pcs[u].Sleeping? {
      assert Enabled(s, u, Advance);
    } else {
      assert Enabled(s, u, Work);
    }
  }

  lemma OwnerInside(s: State)
    requires CV.Inv(s.cond) && Agreement(s) && s.cond.owner.Some?
    ensures s.cond.owner.value in s.pcs && CV.OwnsLock(s.cond.pcs[s.cond.owner.value])
  {
  }

  /** task_done raises ValueError exactly if every item put has already been marked done. */
  lemma RaisesIffAllDone(ss: seq<State>, es: seq<Event>, i: nat)
    requires Run(ss, es) && Init(ss[0]) && i < |es|
    requires es[i].t in ss[i].pcs && ss[i].pcs[es[i].t] == Locked(TaskDone)
    ensures es[i].t in ss[i + 1].pcs
    ensures ss[i + 1].pcs[es[i].t] == Leaving(TaskDone, true) <==> ss[i].dones == ss[i].appended
  {
    hide CV.Inv, WakeUps, SeenZero;
    var s, t := ss[i], es[i].t;
    RunInv(ss, es, i);
    OwnerLocked(s, t);
    assert Enabled(s, t, es[i].a) && ss[i + 1] == Do(s, t, es[i].a);
    assert es[i].a == Work;
  }

  /** A thread about to do its work under the lock owns it. */
  lemma OwnerLocked(s: State, t: Tid)
    requires CV.Inv(s.cond) && Agreement(s) && t in s.pcs && s.pcs[t].Locked?
    ensures s.cond.owner == Some(t)
  {
    hide CV.Accounting;
    assert Agree(s.pcs[t], s.cond.pcs[t]);
  }

  /** As long as task_done is called only for items received, a step does not make its thread raise. */
  lemma StepRaises(s: State, t: Tid, a: Action)
    requires Inv(s) && Enabled(s, t, a) && s.calls <= s.gets
    ensures Do(s, t, a).pcs[t] != Leaving(TaskDone, true)
    ensures forall q :: q in Do(s, t, a).pcs && q != t ==> q in s.pcs && Do(s, t, a).pcs[q] == s.pcs[q]
  {
    hide CV.Inv, WakeUps, SeenZero, Count, Agreement, CV.Enabled, DoCond;
    if a.Work? && s.pcs[t] == Locked(TaskDone) {
      OwnerLocked(s, t);
      CountWitness(s.pcs, Due);
    }
  }

  /** Along a run in which task_done is called only for items received, it never raises. */
  lemma {:induction false} ReceivedNeverRaises(ss: seq<State>, es: seq<Event>, i: nat, t: Tid)
    requires Run(ss, es) && Init(ss[0]) && i < |ss|
    requires forall k :: 0 <= k < |ss| ==> ss[k].calls <= ss[k].gets
    requires t in ss[i].pcs
    ensures ss[i].pcs[t] != Leaving(TaskDone, true)
  {
    if i > 0 {
      hide Inv, Init, Enabled, Do;
      var s, e := ss[i - 1], es[i - 1];
      assert Enabled(s, e.t, e.a) && ss[i] == Do(s, e.t, e.a);
      RunInv(ss, es, i - 1);
      StepRaises(s, e.t, e.a);
      if t != e.t {
        ReceivedNeverRaises(ss, es, i - 1, t);
      }
    }
  }

  /** When nobody owns the lock and the count is zero, no call of join is asleep: the
      task_done that brought it to zero has woken them all. */
  lemma NoJoinForgotten(ss: seq<State>, es: seq<Event>, i: nat)
    requires Run(ss, es) && Init(ss[0]) && i < |ss|
    requires ss[i].cond.owner.None? && ss[i].unfinished == 0
    ensures CV.NobodyAsleep(ss[i].cond)
  {
    hide CV.Inv, CV.NobodyAsleep;
    RunInv(ss, es, i);
  }

  /** What sawZero records: if t has called join at step `first` and is recorded
      at a later moment, the count has been zero in between. */
  lemma {:induction false} SawZero(ss: seq<State>, es: seq<Event>, first: nat, last: nat, t: Tid)
    requires Run(ss, es) && first < last < |ss|
    requires es[first] == Event(t, Call(Join))
    requires t in ss[last].sawZero
    ensures exists k :: first < k <= last && ss[k].unfinished == 0
    decreases last
  {
    var s, e := ss[last - 1], es[last - 1];
    assert Enabled(s, e.t, e.a) && ss[last] == Do(s, e.t, e.a);
    if ss[last].unfinished != 0 {
      hide CV.Do, CV.Enabled;
      if last - 1 > first {
        assert t in s.sawZero;
        SawZero(ss, es, first, last - 1, t);
      }
    }
  }

  /** In every run, join returns only if the count was zero at some moment since the call. */
  lemma JoinSawZero(ss: seq<State>, es: seq<Event>, first: nat, last: nat, t: Tid)
    requires Run(ss, es) && Init(ss[0]) && first < last < |es|
    requires es[first] == Event(t, Call(Join))
    requires t in ss[last].pcs && ss[last].pcs[t].Leaving? && ss[last].pcs[t].op.Join? && es[last] == Event(t, Leave)
    ensures !ss[last].pcs[t].raised
    ensures exists k :: first < k <= last && ss[k].unfinished == 0
  {
    hide CV.Inv, WakeUps, Counting;
    RunInv(ss, es, last);
    HistoryIsEvents(ss, es, last);
    assert SeenZero(ss[last], t);
    SawZero(ss, es, first, last, t);
  }
}
