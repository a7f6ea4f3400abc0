/**
 * The process-shared condition variable of billiard/synchronize.py: one lock and three
 * counting semaphores, used by any number of threads in any number of processes.
 *
 * Every semaphore operation is one atomic step of one thread, so a run is an arbitrary
 * interleaving of `wait`, `notify` and `notify_all`, with timeouts striking whenever a
 * thread is asleep.  The lock is a mutex with an owner; that the recursive lock underneath
 * is one, and that leaving and re-entering it k deep is sound, is the business of module
 * RecursiveLock.
 */
module ConditionVariable {
  import opened Optional
  import opened Tally

  type Tid = nat

  /** Where a thread stands.  A name says what the thread does next. */
  datatype PC =
    | Outside                                  // does not own the lock
    | Owning                                   // in the caller's code, owning the lock
    // wait
    | Announced                                // has released sleeping_count, still owns the lock
    | Asleep                                   // blocked on wait_semaphore
    | Woken(notified: bool)                    // about to release woken_count
    | Relocking(notified: bool)                // about to take the lock again
    // notify and notify_all
    | DrainTest(all: bool)                     // is any woken thread left to account for?
    | DrainTake(all: bool)                     // takes it off sleeping_count, which must succeed
    // notify
    | Grab                                     // is anybody asleep?
    | Post                                     // wakes one
    | Await                                    // waits for it to report
    | Rezero                                   // takes back a token left by a timeout
    // notify_all
    | GrabAll(sleepers: nat)                   // is anybody else asleep?
    | PostAll(sleepers: nat)                   // wakes one more
    | AwaitAll(sleepers: nat, left: nat)       // waits for `left` more to report
    | RezeroAll                                // takes back the tokens left by timeouts
    | AssertionFailed                          // an assert of notify/notify_all did not hold

  /** History of the latest call of notify or notify_all: how many threads were asleep at the
      call, how often it has posted wait_semaphore, and how many waits have taken a token
      since. */
  datatype State = State(
    pcs: map<Tid, PC>,
    owner: Option<Tid>,
    sleeping: nat,
    woken: nat,
    waitSem: nat,
    atCall: nat,
    posted: nat,
    taken: nat)

  datatype Action =
    | Lock | Unlock
    | Wait
    | Notify(all: bool)
    | Advance          // the next instruction of the operation the thread is in
    | GiveUp           // a sleeping thread times out, or is interrupted

  predicate IsAsleep(pc: PC) { pc.Asleep? }
  predicate IsWoken(pc: PC) { pc.Woken? }

  /** The program counters at which a thread owns the lock. */
  predicate OwnsLock(pc: PC) {
    !pc.Outside? && !pc.Asleep? && !pc.Woken? && !pc.Relocking?
  }

  /** The program counters inside notify or notify_all. */
  predicate Notifying(pc: PC) {
    OwnsLock(pc) && !pc.Owning? && !pc.Announced? && !pc.AssertionFailed?
  }

  /** Between going to sleep and reporting awake. */
  predicate AsleepOrWaking(pc: PC) {
    pc.Announced? || pc.Asleep? || pc.Woken?
  }

  predicate InNotifyAll(pc: PC) {
    match pc
    case DrainTest(all) => all
    case DrainTake(all) => all
    case GrabAll(_) => true
    case PostAll(_) => true
    case AwaitAll(_, _) => true
    case RezeroAll => true
    case _ => false
  }

  ghost predicate Enabled(s: State, t: Tid, a: Action) {
    && t in s.pcs
    && var pc := s.pcs[t];
       match a
       case Lock => pc.Outside? && s.owner.None?
       case Unlock => pc.Owning?
       case Wait => pc.Owning?
       case Notify(_) => pc.Owning?
       case GiveUp => pc.Asleep?
       case Advance =>
         match pc
         case Outside => false
         case Owning => false
         case AssertionFailed => false
         case Asleep => s.waitSem > 0
         case Relocking(_) => s.owner.None?
         case Await => s.woken > 0
         case AwaitAll(_, _) => s.woken > 0
         case _ => true
  }

  ghost function Do(s: State, t: Tid, a: Action): State
    requires Enabled(s, t, a)
  {
    match a
    case Lock => s.(owner := Some(t), pcs := s.pcs[t := Owning])
    case Unlock => s.(owner := None, pcs := s.pcs[t := Outside])
    case Wait => s.(sleeping := s.sleeping + 1, pcs := s.pcs[t := Announced])
    case Notify(all) =>
      // it is an error if a token can be taken here
      var s' := s.(atCall := Count(s.pcs, IsAsleep), posted := 0, taken := 0);
      if s.waitSem > 0
      then s'.(waitSem := s.waitSem - 1, pcs := s.pcs[t := AssertionFailed])
      else s'.(pcs := s.pcs[t := DrainTest(all)])
    case GiveUp => s.(pcs := s.pcs[t := Woken(false)])
    case Advance => DoAdvance(s, t)
  }

  ghost function DoAdvance(s: State, t: Tid): State
    requires Enabled(s, t, Advance)
  {
    match s.pcs[t]
    case Announced => s.(owner := None, pcs := s.pcs[t := Asleep])
    case Asleep => s.(waitSem := s.waitSem - 1, taken := s.taken + 1, pcs := s.pcs[t := Woken(true)])
    case Woken(b) => s.(woken := s.woken + 1, pcs := s.pcs[t := Relocking(b)])
    case Relocking(_) => s.(owner := Some(t), pcs := s.pcs[t := Owning])
    case DrainTest(all) =>
      if s.woken > 0 then s.(woken := s.woken - 1, pcs := s.pcs[t := DrainTake(all)])
      else s.(pcs := s.pcs[t := if all then GrabAll(0) else Grab])
    case DrainTake(all) =>
      if s.sleeping > 0 then s.(sleeping := s.sleeping - 1, pcs := s.pcs[t := DrainTest(all)])
      else s.(pcs := s.pcs[t := AssertionFailed])
    case Grab =>
      if s.sleeping > 0 then s.(sleeping := s.sleeping - 1, pcs := s.pcs[t := Post])
      else s.(pcs := s.pcs[t := Owning])
    case Post => s.(waitSem := s.waitSem + 1, posted := s.posted + 1, pcs := s.pcs[t := Await])
    case Await => s.(woken := s.woken - 1, pcs := s.pcs[t := Rezero])
    case Rezero =>
      s.(waitSem := if s.waitSem > 0 then s.waitSem - 1 else 0, pcs := s.pcs[t := Owning])
    case GrabAll(n) =>
      if s.sleeping > 0 then s.(sleeping := s.sleeping - 1, pcs := s.pcs[t := PostAll(n)])
      else s.(pcs := s.pcs[t := if n > 0 then AwaitAll(n, n) else Owning])
    case PostAll(n) =>
      s.(waitSem := s.waitSem + 1, posted := s.posted + 1, pcs := s.pcs[t := GrabAll(n + 1)])
    case AwaitAll(n, left) =>
      s.(woken := s.woken - 1,
         pcs := s.pcs[t := if left > 1 then AwaitAll(n, left - 1) else RezeroAll])
    case RezeroAll =>
      if s.waitSem > 0 then s.(waitSem := s.waitSem - 1)
      else s.(pcs := s.pcs[t := Owning])
  }

  ghost predicate Step(s: State, t: Tid, a: Action, s': State) {
    Enabled(s, t, a) && s' == Do(s, t, a)
  }

  /** A fresh Condition: nobody owns the lock and all three semaphores are zero. */
  ghost predicate Init(s: State) {
    && s.owner.None?
    && s.sleeping == 0 && s.woken == 0 && s.waitSem == 0
    && s.posted == 0 && s.taken == 0
    && forall t :: t in s.pcs ==> s.pcs[t].Outside?
  }

  // ----- The accounting invariant -----

  /** The notifier's phase: the program counter of the lock's owner. */
  ghost function Phase(s: State): PC {
    if s.owner.Some? && s.owner.value in s.pcs then s.pcs[s.owner.value] else Outside
  }

  /** The threads between going to sleep and reporting awake. */
  ghost function Sleepers(s: State): nat {
    (if Phase(s).Announced? then 1 else 0) + Count(s.pcs, IsAsleep) + Count(s.pcs, IsWoken)
  }

  ghost predicate Mutex(s: State) {
    && (s.owner.Some? ==> s.owner.value in s.pcs)
    && forall t :: t in s.pcs ==> (OwnsLock(s.pcs[t]) <==> s.owner == Some(t))
  }

  /** sleeping_count minus woken_count, corrected by the notifier's phase, is the number of
      sleepers; and wait_semaphore is bounded by what the notifier has posted. */
  ghost predicate Accounting(s: State) {
    var asleep, dazed := Count(s.pcs, IsAsleep), Count(s.pcs, IsWoken);
    var owed := Sleepers(s) + s.woken;
    match Phase(s)
    case DrainTake(_) => s.sleeping == owed + 1 && s.waitSem == 0
    case Post => s.sleeping + 1 == owed && s.waitSem == 0
    case Await =>
      s.sleeping + 1 == owed && s.waitSem <= 1 && (s.waitSem == 1 || dazed > 0 || s.woken > 0)
    case Rezero => s.sleeping == owed && s.waitSem <= 1
    case GrabAll(n) => s.sleeping + n == owed && s.waitSem <= n && asleep <= s.waitSem + s.sleeping
    case PostAll(n) => s.sleeping + n + 1 == owed && s.waitSem <= n && asleep <= s.waitSem + s.sleeping + 1
    case AwaitAll(n, left) =>
      s.sleeping == 0 && left == owed && 0 < left <= n && s.waitSem <= n && asleep <= s.waitSem
    case RezeroAll => s.sleeping == 0 && owed == 0
    case AssertionFailed => false
    case _ => s.sleeping == owed && s.waitSem == 0
  }

  ghost predicate Inv(s: State) {
    Mutex(s) && Accounting(s)
  }

  lemma InitInv(s: State)
    requires Init(s)
    ensures Inv(s)
  {
    CountWitness(s.pcs, IsAsleep);
    CountWitness(s.pcs, IsWoken);
  }

  /** One step moves one thread, which changes the two counts accordingly. */
  lemma StepCounts(s: State, t: Tid, a: Action, s': State)
    requires Step(s, t, a, s')
    ensures s'.pcs == s.pcs[t := s'.pcs[t]]
    ensures Count(s'.pcs, IsAsleep) ==
            Count(s.pcs, IsAsleep) - (if s.pcs[t].Asleep? then 1 else 0) + (if s'.pcs[t].Asleep? then 1 else 0)
    ensures Count(s'.pcs, IsWoken) ==
            Count(s.pcs, IsWoken) - (if s.pcs[t].Woken? then 1 else 0) + (if s'.pcs[t].Woken? then 1 else 0)
    ensures s.pcs[t].Asleep? ==> Count(s.pcs, IsAsleep) > 0
    ensures s.pcs[t].Woken? ==> Count(s.pcs, IsWoken) > 0
  {
    assert s'.pcs == s.pcs[t := s'.pcs[t]];
    CountUpdate(s.pcs, IsAsleep, t, s'.pcs[t]);
    CountUpdate(s.pcs, IsWoken, t, s'.pcs[t]);
  }

  lemma StepMutex(s: State, t: Tid, a: Action, s': State)
    requires Mutex(s) && Step(s, t, a, s')
    ensures Mutex(s')
    ensures Phase(s') == if s'.owner == s.owner && s.owner != Some(t) then Phase(s)
                         else if s'.owner == Some(t) then s'.pcs[t] else Outside
    ensures OwnsLock(s.pcs[t]) ==> Phase(s) == s.pcs[t]
    ensures OwnsLock(s.pcs[t]) <==> s.owner == Some(t)
    ensures t in s'.pcs && (OwnsLock(s'.pcs[t]) <==> s'.owner == Some(t))
  {
    hide Count;
  }

  /** The lock's owner moves outside notify and notify_all. */
  lemma CallerAccounting(s: State, t: Tid, a: Action, s': State)
    requires Inv(s) && Step(s, t, a, s') && OwnsLock(s.pcs[t])
    requires !Notifying(s.pcs[t])
    ensures Accounting(s')
  {
    hide Mutex, Count;
    StepCounts(s, t, a, s');
    StepMutex(s, t, a, s');
  }

  /** The lock's owner moves inside notify. */
  lemma NotifyAccounting(s: State, t: Tid, a: Action, s': State)
    requires Inv(s) && Step(s, t, a, s') && OwnsLock(s.pcs[t])
    requires Notifying(s.pcs[t]) && !InNotifyAll(s.pcs[t])
    ensures Accounting(s')
  {
    hide Mutex, Count;
    StepCounts(s, t, a, s');
    StepMutex(s, t, a, s');
  }

  /** The lock's owner moves inside notify_all. */
  lemma NotifyAllAccounting(s: State, t: Tid, a: Action, s': State)
    requires Inv(s) && Step(s, t, a, s') && OwnsLock(s.pcs[t])
    requires InNotifyAll(s.pcs[t])
    ensures Accounting(s')
  {
    hide Mutex, Count;
    StepCounts(s, t, a, s');
    StepMutex(s, t, a, s');
  }

  /** Another thread moves: it takes the free lock, or shifts between sleeping and waking. */
  lemma OtherAccounting(s: State, t: Tid, a: Action, s': State)
    requires Inv(s) && Step(s, t, a, s') && !OwnsLock(s.pcs[t])
    ensures Accounting(s')
  {
    hide Mutex, Count;
    StepCounts(s, t, a, s');
    StepMutex(s, t, a, s');
  }

  lemma StepInv(s: State, t: Tid, a: Action, s': State)
    requires Inv(s) && Step(s, t, a, s')
    ensures Inv(s')
  {
    StepMutex(s, t, a, s');
    if !OwnsLock(s.pcs[t]) {
      OtherAccounting(s, t, a, s');
    } else if InNotifyAll(s.pcs[t]) {
      NotifyAllAccounting(s, t, a, s');
    } else if Notifying(s.pcs[t]) {
      NotifyAccounting(s, t, a, s');
    } else {
      CallerAccounting(s, t, a, s');
    }
  }

  // ----- What the invariant gives -----

  /** Thread `t` returns from notify (or notify_all) between `s` and `s'`. */
  ghost predicate Returns(s: State, t: Tid, s': State, all: bool) {
    && t in s.pcs && Notifying(s.pcs[t]) && InNotifyAll(s.pcs[t]) == all
    && t in s'.pcs && s'.pcs[t].Owning?
  }

  /** No assert of notify or notify_all has failed, and while no notifier is at work
      wait_semaphore is zero and the two counts differ by the number of sleepers. */
  lemma QuietCounts(s: State)
    requires Inv(s)
    ensures forall t :: t in s.pcs ==> !s.pcs[t].AssertionFailed?
    ensures !Notifying(Phase(s)) ==> s.waitSem == 0 && s.sleeping - s.woken == Sleepers(s)
  {
    forall t | t in s.pcs
      ensures !s.pcs[t].AssertionFailed?
    {
      assert OwnsLock(s.pcs[t]) ==> Phase(s) == s.pcs[t];
    }
  }

  ghost predicate NobodyAsleep(s: State) {
    forall u :: u in s.pcs ==> !AsleepOrWaking(s.pcs[u])
  }

  /** When notify_all returns, nobody is left between going to sleep and reporting awake,
      and all three semaphores are back at zero. */
  lemma NotifyAllReturns(s: State, t: Tid, s': State)
    requires Inv(s) && Step(s, t, Advance, s')
    requires Returns(s, t, s', true)
    ensures s'.sleeping == 0 && s'.woken == 0 && s'.waitSem == 0
    ensures NobodyAsleep(s')
  {
    StepMutex(s, t, Advance, s');
    StepCounts(s, t, Advance, s');
    NotifyAllAccounting(s, t, Advance, s');
    CountWitness(s'.pcs, IsAsleep);
    CountWitness(s'.pcs, IsWoken);
  }

  /** While a notifier blocks on woken_count, some other thread inside `wait` can move. */
  lemma NotifierNotStuck(s: State, t: Tid)
    requires Inv(s) && t in s.pcs && (s.pcs[t].Await? || s.pcs[t].AwaitAll?)
    requires s.woken == 0
    ensures exists u :: u in s.pcs && (s.pcs[u].Asleep? || s.pcs[u].Woken?) && Enabled(s, u, Advance)
  {
    assert Phase(s) == s.pcs[t];
    CountWitness(s.pcs, IsAsleep);
    CountWitness(s.pcs, IsWoken);
    if Count(s.pcs, IsWoken) > 0 {
      var u :| u in s.pcs && IsWoken(s.pcs[u]);
      assert Enabled(s, u, Advance);
    } else {
      var u :| u in s.pcs && IsAsleep(s.pcs[u]);
      assert Enabled(s, u, Advance);
    }
  }

  // ----- Termination of the notifier's loops -----

  /** An upper bound on the steps the notifier `t` itself still has to take. */
  ghost function Variant(s: State, t: Tid): nat
    requires t in s.pcs
  {
    var owed := Sleepers(s) + s.woken;
    match s.pcs[t]
    case DrainTest(all) => if all then 4 * owed + 4 else 2 * owed + 5
    case DrainTake(all) => if all then 4 * owed + 6 else 2 * owed + 6
    case Grab => 4
    case Post => 3
    case Await => 2
    case Rezero => 1
    case GrabAll(n) => 4 * s.sleeping + 2 * n + 3
    case PostAll(n) => 4 * s.sleeping + 2 * n + 6
    case AwaitAll(n, left) => left + n + 2
    case RezeroAll => s.waitSem + 1
    case _ => 0
  }

  /** The notifier's own steps use up the variant. */
  lemma VariantOwn(s: State, t: Tid, a: Action, s': State)
    requires Inv(s) && Step(s, t, a, s')
    requires Notifying(s.pcs[t]) && Notifying(s'.pcs[t])
    ensures Variant(s', t) < Variant(s, t)
  {
    hide Mutex, Count;
    StepMutex(s, t, a, s');
    StepCounts(s, t, a, s');
  }

  /** Nobody else's steps add to it. */
  lemma VariantOther(s: State, t: Tid, u: Tid, a: Action, s': State)
    requires Inv(s) && Step(s, u, a, s') && u != t
    requires t in s.pcs && Notifying(s.pcs[t])
    ensures t in s'.pcs && Variant(s', t) <= Variant(s, t)
  {
    StepMutex(s, u, a, s');
    StepCounts(s, u, a, s');
    assert Phase(s) == s.pcs[t] && !OwnsLock(s.pcs[u]);
  }

  // ----- One notify releases one sleeper -----

  /** Holds along every run without timeouts: outside the window in which notify or
      notify_all has posted, nobody is waking up; and within notify the number of sleepers
      is what it was at the call, less the one that was released. */
  ghost predicate Exact(s: State) {
    var asleep, dazed := Count(s.pcs, IsAsleep), Count(s.pcs, IsWoken);
    match Phase(s)
    case DrainTest(all) => dazed == 0 && s.woken == 0 && asleep == s.atCall
    case DrainTake(_) => false
    case Grab => dazed == 0 && s.woken == 0 && asleep == s.atCall
    case Post => dazed == 0 && s.woken == 0 && asleep == s.atCall
    case Await => s.waitSem + dazed + s.woken == 1 && asleep + 1 == s.atCall + s.waitSem
    case Rezero => s.waitSem == 0 && dazed == 0 && s.woken == 0 && asleep + 1 == s.atCall
    case GrabAll(_) => true
    case PostAll(_) => true
    case AwaitAll(_, _) => true
    case RezeroAll => true
    case _ => dazed == 0 && s.woken == 0
  }

  lemma ExactOwner(s: State, t: Tid, a: Action, s': State)
    requires Inv(s) && Exact(s) && Step(s, t, a, s') && OwnsLock(s.pcs[t])
    ensures Exact(s')
  {
    hide Mutex, Count;
    StepMutex(s, t, a, s');
    StepCounts(s, t, a, s');
  }

  lemma ExactOther(s: State, t: Tid, a: Action, s': State)
    requires Inv(s) && Exact(s) && Step(s, t, a, s') && !OwnsLock(s.pcs[t]) && !a.GiveUp?
    ensures Exact(s')
  {
    hide Mutex, Count;
    StepMutex(s, t, a, s');
    StepCounts(s, t, a, s');
  }

  lemma ExactStep(s: State, t: Tid, a: Action, s': State)
    requires Inv(s) && Exact(s) && Step(s, t, a, s') && !a.GiveUp?
    ensures Exact(s')
  {
    if OwnsLock(s.pcs[t]) {
      ExactOwner(s, t, a, s');
    } else {
      ExactOther(s, t, a, s');
    }
  }

  /** Without timeouts, a returning notify has released exactly one of the threads that
      were asleep when it was called, or none if there was none. */
  lemma NotifyReleasesOne(s: State, t: Tid, s': State)
    requires Inv(s) && Exact(s) && Step(s, t, Advance, s')
    requires Returns(s, t, s', false)
    ensures Count(s'.pcs, IsAsleep) == if s'.atCall > 0 then s'.atCall - 1 else 0
    ensures Count(s'.pcs, IsWoken) == 0 && s'.woken == 0
  {
    StepMutex(s, t, Advance, s');
    StepCounts(s, t, Advance, s');
  }

  // ----- What wait returns -----

  /** The waits that have taken a token since the latest call of notify or notify_all, and the
      tokens left, are at most what that call has posted: one for notify. */
  ghost predicate Tokens(s: State) {
    && s.taken + s.waitSem <= s.posted
    && match Phase(s)
       case DrainTest(_) => s.posted == 0
       case DrainTake(_) => s.posted == 0
       case Grab => s.posted == 0
       case Post => s.posted == 0
       case Await => s.posted == 1
       case Rezero => s.posted == 1
       case GrabAll(n) => s.posted == n
       case PostAll(n) => s.posted == n
       case AwaitAll(n, _) => s.posted == n
       case _ => true
  }

  lemma TokensStep(s: State, t: Tid, a: Action, s': State)
    requires Inv(s) && Tokens(s) && Step(s, t, a, s')
    ensures Tokens(s')
  {
    hide Mutex, Count;
    StepMutex(s, t, a, s');
  }

  /** A wait takes a token, and so will return True, only while a notifier is at work. */
  lemma TakenWhileNotifying(s: State, t: Tid, s': State)
    requires Inv(s) && Step(s, t, Advance, s') && s.pcs[t].Asleep?
    ensures Notifying(Phase(s)) && s'.pcs[t] == Woken(true) && s'.taken == s.taken + 1
  {
    hide Mutex, Count;
    StepMutex(s, t, Advance, s');
    QuietCounts(s);
  }

  // ----- Runs -----

  datatype Event = Event(t: Tid, a: Action)

  /** `ss` is a run taking the steps `es`. */
  ghost predicate Run(ss: seq<State>, es: seq<Event>) {
    && |ss| == |es| + 1
    && forall i {:trigger es[i]} :: 0 <= i < |es| ==> Step(ss[i], es[i].t, es[i].a, ss[i + 1])
  }

  lemma {:induction false} RunInv(ss: seq<State>, es: seq<Event>, i: nat)
    requires Run(ss, es) && Init(ss[0]) && i < |ss|
    ensures Inv(ss[i])
  {
    hide Inv, Init, Step;
    if i == 0 {
      InitInv(ss[0]);
    } else {
      RunInv(ss, es, i - 1);
      StepInv(ss[i - 1], es[i - 1].t, es[i - 1].a, ss[i]);
    }
  }

  lemma {:induction false} RunExact(ss: seq<State>, es: seq<Event>, i: nat)
    requires Run(ss, es) && Init(ss[0]) && i < |ss|
    requires forall k :: 0 <= k < i ==> !es[k].a.GiveUp?
    ensures Exact(ss[i])
  {
    if i == 0 {
      CountWitness(ss[0].pcs, IsWoken);
    } else {
      RunExact(ss, es, i - 1);
      RunInv(ss, es, i - 1);
      ExactStep(ss[i - 1], es[i - 1].t, es[i - 1].a, ss[i]);
    }
  }

  /** In every run from a fresh Condition, with any number of threads and timeouts at any
      moment, every assert of notify and notify_all holds, and wait_semaphore is zero
      whenever no notifier is active. */
  lemma AssertsHold(ss: seq<State>, es: seq<Event>, i: nat)
    requires Run(ss, es) && Init(ss[0]) && i < |ss|
    ensures forall t :: t in ss[i].pcs ==> !ss[i].pcs[t].AssertionFailed?
    ensures !Notifying(Phase(ss[i])) ==>
              ss[i].waitSem == 0 && ss[i].sleeping - ss[i].woken == Sleepers(ss[i])
  {
    RunInv(ss, es, i);
    QuietCounts(ss[i]);
  }

  lemma {:induction false} RunTokens(ss: seq<State>, es: seq<Event>, i: nat)
    requires Run(ss, es) && Init(ss[0]) && i < |ss|
    ensures Tokens(ss[i])
  {
    hide Inv, Tokens;
    if i == 0 {
      TokensInit(ss[0]);
    } else {
      RunTokens(ss, es, i - 1);
      RunInv(ss, es, i - 1);
      TokensStep(ss[i - 1], es[i - 1].t, es[i - 1].a, ss[i]);
    }
  }

  lemma TokensInit(s: State)
    requires Init(s)
    ensures Tokens(s)
  {
  }

  /** How many of the steps `es` are taken by `t`. */
  ghost function OwnSteps(es: seq<Event>, t: Tid): nat {
    if es == [] then 0 else (if es[0].t == t then 1 else 0) + OwnSteps(es[1..], t)
  }

  /** The loops of notify and notify_all terminate: as long as `t` is inside one call it takes
      at most as many steps as the variant said at the start, whatever the others do. */
  lemma {:induction false} NotifierTerminates(ss: seq<State>, es: seq<Event>, t: Tid)
    requires Run(ss, es) && Inv(ss[0])
    requires forall i :: 0 <= i < |ss| ==> t in ss[i].pcs && Notifying(ss[i].pcs[t])
    ensures OwnSteps(es, t) <= Variant(ss[0], t)
    decreases |es|
  {
    if es != [] {
      var e := es[0];
      assert Step(ss[0], e.t, e.a, ss[1]);
      if e.t == t {
        VariantOwn(ss[0], t, e.a, ss[1]);
      } else {
        VariantOther(ss[0], t, e.t, e.a, ss[1]);
      }
      StepInv(ss[0], e.t, e.a, ss[1]);
      NotifierTerminates(ss[1..], es[1..], t);
    }
  }
}
