/**
 * What whole calls on the condition variable of billiard/synchronize.py promise: a call is
 * followed from the step that makes it to the step by which it returns, through any
 * interleaving with other threads.
 */
module ConditionCalls {
  import opened ConditionVariable
  import opened Optional
  import opened Tally

  /** Thread `t` calls notify (or notify_all) by step `call` and comes back by step `back`. */
  ghost predicate NotifyCall(ss: seq<State>, es: seq<Event>, t: Tid, all: bool, call: nat, back: nat) {
    && Run(ss, es) && Init(ss[0]) && call < back < |es|
    && es[call] == Event(t, Notify(all))
    && (forall k :: call < k <= back ==> t in ss[k].pcs && Notifying(ss[k].pcs[t]))
    && t in ss[back + 1].pcs && !Notifying(ss[back + 1].pcs[t])
  }

  /** No wait times out from step `lo` up to step `hi`. */
  ghost predicate NoTimeout(es: seq<Event>, lo: nat, hi: nat)
    requires lo <= hi <= |es|
  {
    forall k :: lo <= k < hi ==> !es[k].a.GiveUp?
  }

  /** By this step a sleeping wait is woken, and will return True. */
  ghost predicate WakesTrue(s: State, e: Event, s': State) {
    e.t in s.pcs && s.pcs[e.t].Asleep? && e.t in s'.pcs && s'.pcs[e.t] == Woken(true)
  }

  /** By this step a sleeping wait gives up, and will return False. */
  ghost predicate WakesFalse(s: State, e: Event, s': State) {
    e.t in s.pcs && s.pcs[e.t].Asleep? && e.t in s'.pcs && s'.pcs[e.t] == Woken(false)
  }

  /** How many waits are woken from step `lo` up to step `hi`. */
  ghost function WokenTrue(ss: seq<State>, es: seq<Event>, lo: nat, hi: nat): nat
    requires lo <= hi <= |es| && |ss| == |es| + 1
  {
    if lo == hi then 0
    else WokenTrue(ss, es, lo, hi - 1) + (if WakesTrue(ss[hi - 1], es[hi - 1], ss[hi]) then 1 else 0)
  }

  ghost function WokenFalse(ss: seq<State>, es: seq<Event>, lo: nat, hi: nat): nat
    requires lo <= hi <= |es| && |ss| == |es| + 1
  {
    if lo == hi then 0
    else WokenFalse(ss, es, lo, hi - 1) + (if WakesFalse(ss[hi - 1], es[hi - 1], ss[hi]) then 1 else 0)
  }

  /** Any step taken while `t` is inside notify or notify_all. */
  lemma StepDuring(s: State, e: Event, s': State, t: Tid)
    requires Inv(s) && Step(s, e.t, e.a, s') && t in s.pcs && Notifying(s.pcs[t])
    ensures t in s'.pcs && s'.atCall == s.atCall
    ensures Notifying(s'.pcs[t]) ==> InNotifyAll(s'.pcs[t]) == InNotifyAll(s.pcs[t])
    ensures !Notifying(s'.pcs[t]) ==> e == Event(t, Advance) && s'.pcs[t].Owning?
    ensures s'.taken == s.taken + (if WakesTrue(s, e, s') then 1 else 0)
    ensures Count(s'.pcs, IsAsleep) == Count(s.pcs, IsAsleep)
              - (if WakesTrue(s, e, s') then 1 else 0) - (if WakesFalse(s, e, s') then 1 else 0)
    ensures WakesFalse(s, e, s') ==> e.a.GiveUp?
  {
    hide Count, Accounting;
    StepMutex(s, e.t, e.a, s');
    StepCounts(s, e.t, e.a, s');
    StepInv(s, e.t, e.a, s');
    QuietCounts(s');
  }

  /** The step that calls notify or notify_all. */
  lemma StepCalls(s: State, t: Tid, all: bool, s': State)
    requires Inv(s) && Step(s, t, Notify(all), s')
    ensures Notifying(s'.pcs[t]) && InNotifyAll(s'.pcs[t]) == all
    ensures s'.atCall == Count(s.pcs, IsAsleep) == Count(s'.pcs, IsAsleep)
    ensures s'.taken == 0 && !WakesTrue(s, Event(t, Notify(all)), s') && !WakesFalse(s, Event(t, Notify(all)), s')
  {
    hide Count;
    StepMutex(s, t, Notify(all), s');
    StepCounts(s, t, Notify(all), s');
  }

  /** From the call up to any moment before the return: the kind of call does not change, and the
      history is what has happened since. */
  lemma {:induction false} CallSoFar(ss: seq<State>, es: seq<Event>, t: Tid, all: bool, call: nat, back: nat, k: nat)
    requires NotifyCall(ss, es, t, all, call, back) && call < k <= back
    ensures InNotifyAll(ss[k].pcs[t]) == all
    ensures ss[k].atCall == Count(ss[call].pcs, IsAsleep)
    ensures ss[k].taken == WokenTrue(ss, es, call, k)
    ensures Count(ss[k].pcs, IsAsleep) + WokenTrue(ss, es, call, k) + WokenFalse(ss, es, call, k)
         == Count(ss[call].pcs, IsAsleep)
  {
    hide Inv, Step, Init, WakesTrue, WakesFalse, Count;
    RunInv(ss, es, k - 1);
    if k == call + 1 {
      assert Step(ss[call], t, Notify(all), ss[k]);
      StepCalls(ss[call], t, all, ss[k]);
      assert WokenTrue(ss, es, call, call) == 0 && WokenFalse(ss, es, call, call) == 0;
    } else {
      CallSoFar(ss, es, t, all, call, back, k - 1);
      assert Step(ss[k - 1], es[k - 1].t, es[k - 1].a, ss[k]);
      StepDuring(ss[k - 1], es[k - 1], ss[k], t);
    }
  }

  /** ... and up to the return, after which the caller owns the lock. */
  lemma CallReturns(ss: seq<State>, es: seq<Event>, t: Tid, all: bool, call: nat, back: nat)
    requires NotifyCall(ss, es, t, all, call, back)
    ensures Inv(ss[back]) && Step(ss[back], t, Advance, ss[back + 1])
    ensures Returns(ss[back], t, ss[back + 1], all)
    ensures ss[back + 1].atCall == Count(ss[call].pcs, IsAsleep)
    ensures ss[back + 1].taken == WokenTrue(ss, es, call, back + 1)
    ensures Count(ss[back + 1].pcs, IsAsleep) + WokenTrue(ss, es, call, back + 1) + WokenFalse(ss, es, call, back + 1)
         == Count(ss[call].pcs, IsAsleep)
  {
    hide Inv, Step, Init, WakesTrue, WakesFalse, Count;
    RunInv(ss, es, back);
    CallSoFar(ss, es, t, all, call, back, back);
    assert Step(ss[back], es[back].t, es[back].a, ss[back + 1]);
    StepDuring(ss[back], es[back], ss[back + 1], t);
  }

  lemma {:induction false} NobodyGivesUp(ss: seq<State>, es: seq<Event>, lo: nat, hi: nat)
    requires Run(ss, es) && lo <= hi <= |es| && NoTimeout(es, lo, hi)
    ensures WokenFalse(ss, es, lo, hi) == 0
  {
    if lo < hi {
      NobodyGivesUp(ss, es, lo, hi - 1);
      assert Step(ss[hi - 1], es[hi - 1].t, es[hi - 1].a, ss[hi]);
    }
  }

  /** In every run without timeouts, a call of notify wakes exactly one of the threads that were
      asleep when it was made, or none if there was none, and that wait returns True. */
  lemma NotifyWakesOne(ss: seq<State>, es: seq<Event>, t: Tid, call: nat, back: nat)
    requires NotifyCall(ss, es, t, false, call, back) && NoTimeout(es, 0, back + 1)
    ensures var before := Count(ss[call].pcs, IsAsleep);
            && Count(ss[back + 1].pcs, IsAsleep) == (if before > 0 then before - 1 else 0)
            && WokenTrue(ss, es, call, back + 1) == (if before > 0 then 1 else 0)
  {
    hide Step, Init, Count, Returns;
    CallReturns(ss, es, t, false, call, back);
    RunExact(ss, es, back);
    NotifyReleasesOne(ss[back], t, ss[back + 1]);
    NobodyGivesUp(ss, es, call, back + 1);
  }

  /** In every run, with timeouts at any moment, a call of notify makes at most one wait return
      True. */
  lemma NotifyAtMostOneTrue(ss: seq<State>, es: seq<Event>, t: Tid, call: nat, back: nat)
    requires NotifyCall(ss, es, t, false, call, back)
    ensures WokenTrue(ss, es, call, back + 1) <= 1
  {
    hide Mutex, Count, Init;
    CallReturns(ss, es, t, false, call, back);
    RunTokens(ss, es, back);
    StepMutex(ss[back], t, Advance, ss[back + 1]);
  }

  /** In every run, a call of notify_all comes back only after every thread that was asleep when
      it was made has woken up and reported so: each of them has been woken or has given up, and
      all three semaphores are back at zero. */
  lemma NotifyAllWakesEverybody(ss: seq<State>, es: seq<Event>, t: Tid, call: nat, back: nat)
    requires NotifyCall(ss, es, t, true, call, back)
    ensures NobodyAsleep(ss[back + 1])
    ensures ss[back + 1].sleeping == 0 && ss[back + 1].woken == 0 && ss[back + 1].waitSem == 0
    ensures WokenTrue(ss, es, call, back + 1) + WokenFalse(ss, es, call, back + 1) == Count(ss[call].pcs, IsAsleep)
    ensures NoTimeout(es, call, back + 1) ==> WokenTrue(ss, es, call, back + 1) == Count(ss[call].pcs, IsAsleep)
  {
    hide Step, Init, Count, Inv, Returns;
    CallReturns(ss, es, t, true, call, back);
    NotifyAllReturns(ss[back], t, ss[back + 1]);
    CountWitness(ss[back + 1].pcs, IsAsleep);
    if NoTimeout(es, call, back + 1) {
      NobodyGivesUp(ss, es, call, back + 1);
    }
  }

  predicate InWait(pc: PC) {
    pc.Announced? || pc.Asleep? || pc.Woken? || pc.Relocking?
  }

  /** Thread `t` calls wait by step `call` and comes back by step `back`. */
  ghost predicate WaitCall(ss: seq<State>, es: seq<Event>, t: Tid, call: nat, back: nat) {
    && Run(ss, es) && Init(ss[0]) && call < back < |es|
    && es[call] == Event(t, Wait)
    && (forall k :: call < k <= back ==> t in ss[k].pcs && InWait(ss[k].pcs[t]))
    && t in ss[back + 1].pcs && !InWait(ss[back + 1].pcs[t])
  }

  /** What a wait that has left its sleep will return. */
  function Answer(pc: PC): Option<bool> {
    match pc
    case Woken(b) => Some(b)
    case Relocking(b) => Some(b)
    case _ => None
  }

  /** By step `wake` the thread has left its sleep, and `answer` says how. */
  ghost predicate LeftSleep(ss: seq<State>, es: seq<Event>, t: Tid, wake: nat, answer: bool)
    requires wake < |es| && |ss| == |es| + 1
  {
    && es[wake].t == t
    && if answer then WakesTrue(ss[wake], es[wake], ss[wake + 1]) && ss[wake + 1].waitSem == ss[wake].waitSem - 1
       else WakesFalse(ss[wake], es[wake], ss[wake + 1]) && es[wake].a.GiveUp?
  }

  /** A step by a thread inside wait, or of another thread. */
  lemma StepInWait(s: State, e: Event, s': State, t: Tid)
    requires Step(s, e.t, e.a, s') && t in s.pcs && InWait(s.pcs[t])
    ensures t in s'.pcs && (e.t != t ==> s'.pcs[t] == s.pcs[t])
    ensures e.t == t && s.pcs[t].Announced? ==> s'.pcs[t].Asleep?
    ensures e.t == t && s.pcs[t].Asleep? ==>
              (WakesTrue(s, e, s') && s'.waitSem == s.waitSem - 1) || (WakesFalse(s, e, s') && e.a.GiveUp?)
    ensures e.t == t && Answer(s.pcs[t]).Some? ==>
              s'.pcs[t].Owning? || Answer(s'.pcs[t]) == Answer(s.pcs[t])
    ensures e.t == t && s'.pcs[t].Owning? ==> Answer(s.pcs[t]).Some?
  {
    hide Count;
    StepCounts(s, e.t, e.a, s');
  }

  lemma {:induction false} WaitSoFar(ss: seq<State>, es: seq<Event>, t: Tid, call: nat, back: nat, k: nat)
    requires WaitCall(ss, es, t, call, back) && call < k <= back
    ensures Answer(ss[k].pcs[t]).Some? ==>
              exists wake :: call < wake < k && LeftSleep(ss, es, t, wake, Answer(ss[k].pcs[t]).value)
  {
    hide Init, Step;
    var e := es[k - 1];
    assert Step(ss[k - 1], e.t, e.a, ss[k]);
    if k == call + 1 {
      assert Answer(ss[k].pcs[t]).None? by {
        WaitAnnounces(ss[call], t, ss[k]);
      }
    } else {
      WaitSoFar(ss, es, t, call, back, k - 1);
      StepInWait(ss[k - 1], e, ss[k], t);
      if Answer(ss[k - 1].pcs[t]).None? && Answer(ss[k].pcs[t]).Some? {
        assert LeftSleep(ss, es, t, k - 1, Answer(ss[k].pcs[t]).value);
      }
    }
  }

  lemma WaitAnnounces(s: State, t: Tid, s': State)
    requires Step(s, t, Wait, s')
    ensures s'.pcs[t].Announced?
  {
  }

  /** A call of wait comes back owning the lock and only after a sleep.  It returns True exactly
      if it was woken, taking a token of wait_semaphore, and False exactly if it gave up; so in
      a run without timeouts it returns True. */
  lemma WaitReturns(ss: seq<State>, es: seq<Event>, t: Tid, call: nat, back: nat)
    requires WaitCall(ss, es, t, call, back)
    ensures es[back] == Event(t, Advance) && ss[back + 1].pcs[t].Owning? && ss[back + 1].owner == Some(t)
    ensures ss[back].pcs[t].Relocking?
    ensures exists wake :: call < wake < back && LeftSleep(ss, es, t, wake, ss[back].pcs[t].notified)
    ensures NoTimeout(es, call, back) ==> ss[back].pcs[t] == Relocking(true)
  {
    hide Init;
    var e := es[back];
    assert Step(ss[back], e.t, e.a, ss[back + 1]);
    WaitSoFar(ss, es, t, call, back, back);
  }

  /** A timeout may strike at every moment of a sleep, and the lock's owner may make any call. */
  lemma AnytimeTimeout(s: State, t: Tid)
    requires t in s.pcs
    ensures s.pcs[t].Asleep? ==> Enabled(s, t, GiveUp) && Do(s, t, GiveUp).pcs[t] == Woken(false)
    ensures s.pcs[t].Owning? ==>
              && Enabled(s, t, Wait) && Enabled(s, t, Unlock)
              && Enabled(s, t, Notify(false)) && Enabled(s, t, Notify(true))
  {
  }

  /** No deadlock: whenever a thread is inside a call and not asleep, or owns the lock, some
      thread can take a step. */
  lemma SomebodyMoves(s: State, t: Tid)
    requires Inv(s) && t in s.pcs && !s.pcs[t].Outside? && !s.pcs[t].Asleep?
    ensures exists u, a :: (a == Advance || a == Unlock) && Enabled(s, u, a)
  {
    QuietCounts(s);
    var u := if s.owner.Some? then s.owner.value else t;
    if (s.pcs[u].Await? || s.pcs[u].AwaitAll?) && s.woken == 0 {
      NotifierNotStuck(s, u);
    } else if s.pcs[u].Owning? {
      assert Enabled(s, u, Unlock);
    } else {
      assert Enabled(s, u, Advance);
    }
  }
}
