/**
 * The recursive lock of Modules/_billiard/semaphore.c: one POSIX semaphore shared by all
 * processes, and in each process a `count` and a `last_tid` that only that process sees.
 *
 * A thread gives up the GIL while it sits in sem_wait, so taking the semaphore and booking
 * the acquisition are two steps.  Releasing posts the semaphore and then decrements `count`
 * without giving up the GIL: other processes may run in between, threads of the same
 * process may not touch `count`.  A forked child starts with a copy of the parent's count
 * and last_tid, which its after-fork hook clears before any lock call is made.
 */
module RecursiveLock {
  import opened Optional
  import opened Tally

  type Pid = nat
  type Tid = nat

  datatype Thread = Thread(pid: Pid, tid: Tid)

  /** The BilliardSemLockObject of one process.  `posting` is the thread that has posted the
      semaphore and, still holding the GIL, has yet to decrement `count`. */
  datatype Proc = Proc(count: nat, lastTid: Tid, hookRan: bool, posting: Option<Tid>)

  datatype PC =
    | Idle            // in the caller's code, or back from a lock call
    | InSemWait       // in sem_wait, sem_trywait or sem_timedwait, without the GIL
    | GotToken        // the semaphore was decremented, count is not incremented yet

  datatype State = State(sem: nat, procs: map<Pid, Proc>, pcs: map<Thread, PC>)

  datatype Action =
    | Reenter                 // acquire by the owner: ++count
    | EnterWait               // acquire by anybody else: go and wait for the semaphore
    | SemTake                 // sem_wait succeeds
    | SemFail                 // would block, timed out, or interrupted by a handler that raises
    | Book                    // ++count; last_tid = me
    | Refused                 // release by a thread that does not own the lock: AssertionError
    | Leave                   // release while count > 1: --count
    | Post                    // release while count == 1: sem_post
    | Unbook                  // ... and then --count
    | Fork(child: Pid)
    | AfterFork               // the hook of a forked child: count = 0
    | NewThread(tid: Tid)

  /** The macro ISMINE. */
  predicate IsMine(p: Proc, tid: Tid) {
    p.count > 0 && tid == p.lastTid
  }

  predicate Enabled(s: State, th: Thread, a: Action) {
    && th in s.pcs && th.pid in s.procs
    && var p, pc := s.procs[th.pid], s.pcs[th];
       && (a.AfterFork? <==> !p.hookRan)
       && match a
          case SemTake => pc.InSemWait? && s.sem > 0
          case SemFail => pc.InSemWait?
          case Unbook => p.posting == Some(th.tid)
          case AfterFork => pc.Idle?
          case _ =>
            // everything else needs the GIL
            p.posting.None? &&
            match a
            case Reenter => pc.Idle? && IsMine(p, th.tid)
            case EnterWait => pc.Idle? && !IsMine(p, th.tid)
            case Book => pc.GotToken?
            case Refused => pc.Idle? && !IsMine(p, th.tid)
            case Leave => pc.Idle? && IsMine(p, th.tid) && p.count > 1
            case Post => pc.Idle? && IsMine(p, th.tid) && p.count == 1
            case Fork(child) => pc.Idle? && child !in s.procs
            case NewThread(tid) => Thread(th.pid, tid) !in s.pcs
            case _ => false
  }

  function Do(s: State, th: Thread, a: Action): State
    requires Enabled(s, th, a)
  {
    var p := s.procs[th.pid];
    match a
    case Reenter => s.(procs := s.procs[th.pid := p.(count := p.count + 1)])
    case EnterWait => s.(pcs := s.pcs[th := InSemWait])
    case SemTake => s.(sem := s.sem - 1, pcs := s.pcs[th := GotToken])
    case SemFail => s.(pcs := s.pcs[th := Idle])
    case Book =>
      s.(procs := s.procs[th.pid := p.(count := p.count + 1, lastTid := th.tid)], pcs := s.pcs[th := Idle])
    case Refused => s
    case Leave => s.(procs := s.procs[th.pid := p.(count := p.count - 1)])
    case Post => s.(sem := s.sem + 1, procs := s.procs[th.pid := p.(posting := Some(th.tid))])
    case Unbook =>
      s.(procs := s.procs[th.pid := p.(count := if p.count > 0 then p.count - 1 else 0, posting := None)])
    case Fork(child) =>
      s.(procs := s.procs[child := p.(hookRan := false)], pcs := s.pcs[Thread(child, th.tid) := Idle])
    case AfterFork => s.(procs := s.procs[th.pid := p.(count := 0, hookRan := true)])
    case NewThread(tid) => s.(pcs := s.pcs[Thread(th.pid, tid) := Idle])
  }

  predicate Step(s: State, th: Thread, a: Action, s': State) {
    Enabled(s, th, a) && s' == Do(s, th, a)
  }

  /** A fresh RLock: the semaphore is 1 and no process counts anything. */
  ghost predicate Init(s: State) {
    && s.sem == 1
    && (forall p :: p in s.procs ==> s.procs[p].count == 0 && s.procs[p].hookRan && s.procs[p].posting.None?)
    && (forall th :: th in s.pcs ==> th.pid in s.procs && s.pcs[th].Idle?)
  }

  // ----- The invariant -----

  /** The process's count stands for ownership: its hook has run and its token is not
      already posted back. */
  predicate Owning(p: Proc) { p.hookRan && p.count > 0 && p.posting.None? }

  predicate Holding(pc: PC) { pc.GotToken? }

  /** The semaphore's value plus the number of owners. */
  ghost function Tokens(s: State): nat {
    s.sem + Count(s.pcs, Holding) + Count(s.procs, Owning)
  }

  /** A process that has posted and not yet decremented is at a count of one. */
  ghost predicate PostingOk(s: State) {
    forall p :: p in s.procs && s.procs[p].posting.Some? ==>
      s.procs[p].hookRan && s.procs[p].count == 1 && s.procs[p].lastTid == s.procs[p].posting.value
  }

  /** Before the after-fork hook has run, no thread of the process is inside a lock call. */
  ghost predicate ThreadsOk(s: State) {
    forall th :: th in s.pcs ==> th.pid in s.procs && (s.procs[th.pid].hookRan || s.pcs[th].Idle?)
  }

  /** The thread that a count belongs to exists. */
  ghost predicate OwnersOk(s: State) {
    forall p :: p in s.procs && Owning(s.procs[p]) ==> Thread(p, s.procs[p].lastTid) in s.pcs
  }

  ghost predicate Inv(s: State) {
    Tokens(s) == 1 && PostingOk(s) && ThreadsOk(s) && OwnersOk(s)
  }

  lemma InitInv(s: State)
    requires Init(s)
    ensures Inv(s)
  {
    CountWitness(s.pcs, Holding);
    CountWitness(s.procs, Owning);
  }

  /** A thread with the semaphore's token excludes every process from owning the lock. */
  lemma TokenExcludes(s: State, th: Thread)
    requires Inv(s) && th in s.pcs && s.pcs[th].GotToken?
    ensures s.sem == 0 && forall p :: p in s.procs ==> !Owning(s.procs[p])
  {
    CountWitness(s.pcs, Holding);
    CountWitness(s.procs, Owning);
  }

  lemma StepTokens(s: State, th: Thread, a: Action, s': State)
    requires Inv(s) && Step(s, th, a, s')
    ensures Tokens(s') == 1
  {
    var pid: Pid := if a.Fork? then a.child else th.pid;
    var who := if a.Fork? then Thread(a.child, th.tid) else if a.NewThread? then Thread(th.pid, a.tid) else th;
    assert s'.procs == s.procs[pid := s'.procs[pid]];
    assert s'.pcs == s.pcs[who := s'.pcs[who]];
    CountUpdate(s.pcs, Holding, who, s'.pcs[who]);
    CountUpdate(s.procs, Owning, pid, s'.procs[pid]);
    if a.Book? {
      TokenExcludes(s, th);
    }
  }

  lemma StepPosting(s: State, th: Thread, a: Action, s': State)
    requires PostingOk(s) && Step(s, th, a, s')
    ensures PostingOk(s')
  {
  }

  lemma StepThreads(s: State, th: Thread, a: Action, s': State)
    requires ThreadsOk(s) && Step(s, th, a, s')
    ensures ThreadsOk(s')
  {
  }

  lemma StepOwners(s: State, th: Thread, a: Action, s': State)
    requires OwnersOk(s) && ThreadsOk(s) && PostingOk(s) && Step(s, th, a, s')
    ensures OwnersOk(s')
  {
  }

  lemma StepInv(s: State, th: Thread, a: Action, s': State)
    requires Inv(s) && Step(s, th, a, s')
    ensures Inv(s')
  {
    hide Tokens, PostingOk, ThreadsOk, OwnersOk, Step;
    StepTokens(s, th, a, s');
    StepPosting(s, th, a, s');
    StepThreads(s, th, a, s');
    StepOwners(s, th, a, s');
  }

  // ----- Ownership -----

  /** How deep `th` holds the lock; 0 means that it does not own it. */
  function Depth(s: State, th: Thread): nat {
    if th.pid in s.procs && Owning(s.procs[th.pid]) && s.procs[th.pid].lastTid == th.tid
    then s.procs[th.pid].count else 0
  }

  /** `th` owns the lock, or has taken the semaphore on the way to owning it. */
  predicate Owns(s: State, th: Thread) {
    Depth(s, th) > 0 || (th in s.pcs && s.pcs[th].GotToken?)
  }

  /** Mutual exclusion over all threads of all processes. */
  lemma AtMostOneOwner(s: State, a: Thread, b: Thread)
    requires Inv(s) && Owns(s, a) && Owns(s, b)
    ensures a == b && s.sem == 0
  {
    var got, own := Matching(s.pcs, Holding), Matching(s.procs, Owning);
    assert |got| + |own| <= 1;
    if a in s.pcs && s.pcs[a].GotToken? {
      TokenExcludes(s, a);
      assert a in got && b in got;
      assert {a, b} <= got;
      SubsetSize({a, b}, got);
    } else if b in s.pcs && s.pcs[b].GotToken? {
      TokenExcludes(s, b);
    } else {
      assert {a.pid, b.pid} <= own;
      SubsetSize({a.pid, b.pid}, own);
    }
  }

  /** The semaphore is free exactly when no thread owns the lock or has its token. */
  lemma FreeIffUnowned(s: State)
    requires Inv(s)
    ensures s.sem == 1 <==> forall th :: th in s.pcs ==> !Owns(s, th)
  {
    CountWitness(s.pcs, Holding);
    CountWitness(s.procs, Owning);
    if s.sem != 1 {
      if th :| th in s.pcs && Holding(s.pcs[th]) {
        assert Owns(s, th);
      } else {
        var p :| p in s.procs && Owning(s.procs[p]);
        assert Owns(s, Thread(p, s.procs[p].lastTid));
      }
    }
  }

  /** The depth an action adds to the thread that takes it. */
  function Gain(a: Action): int {
    match a
    case Reenter => 1
    case Book => 1
    case Leave => -1
    case Post => -1
    case _ => 0
  }

  /** Each step changes the acting thread's depth by what it gained, and nobody else's;
      so a fork gives the child no ownership. */
  lemma StepDepth(s: State, u: Thread, a: Action, s': State, th: Thread)
    requires Inv(s) && Step(s, u, a, s')
    ensures Depth(s', th) == Depth(s, th) + (if u == th then Gain(a) else 0)
  {
    if a.Book? {
      TokenExcludes(s, u);
    }
  }

  /** A release is refused exactly when the caller does not own the lock. */
  lemma RefusedIffNotOwner(s: State, th: Thread)
    requires Inv(s) && th in s.pcs && s.pcs[th].Idle?
    requires th.pid in s.procs && s.procs[th.pid].hookRan && s.procs[th.pid].posting.None?
    ensures Enabled(s, th, Refused) <==> Depth(s, th) == 0
    ensures Depth(s, th) > 0 <==> Enabled(s, th, Leave) || Enabled(s, th, Post)
  {
  }

  // ----- Runs -----

  datatype Event = Event(th: Thread, a: Action)

  ghost predicate Run(ss: seq<State>, es: seq<Event>) {
    && |ss| == |es| + 1
    && forall i {:trigger es[i]} :: 0 <= i < |es| ==> Step(ss[i], es[i].th, es[i].a, ss[i + 1])
  }

  lemma {:induction false} RunInv(ss: seq<State>, es: seq<Event>, i: nat)
    requires Run(ss, es) && Inv(ss[0]) && i < |ss|
    ensures Inv(ss[i])
  {
    hide Inv, Step;
    if i > 0 {
      RunInv(ss, es, i - 1);
      StepInv(ss[i - 1], es[i - 1].th, es[i - 1].a, ss[i]);
    }
  }

  /** In every run from a fresh lock, the semaphore's value plus the number of owners is 1
      and no two threads of any processes own the lock. */
  lemma MutualExclusion(ss: seq<State>, es: seq<Event>, i: nat)
    requires Run(ss, es) && Init(ss[0]) && i < |ss|
    ensures Tokens(ss[i]) == 1
    ensures forall a, b :: Owns(ss[i], a) && Owns(ss[i], b) ==> a == b
  {
    InitInv(ss[0]);
    RunInv(ss, es, i);
    forall a, b | Owns(ss[i], a) && Owns(ss[i], b)
      ensures a == b
    {
      AtMostOneOwner(ss[i], a, b);
    }
  }

  /** The net depth that `th` gains by the events from `lo` up to `hi`. */
  ghost function NetGain(es: seq<Event>, th: Thread, lo: nat, hi: nat): int
    requires lo <= hi <= |es|
  {
    if lo == hi then 0
    else NetGain(es, th, lo, hi - 1) + (if es[hi - 1].th == th then Gain(es[hi - 1].a) else 0)
  }

  /** Along any run, whatever the other threads and processes do, a thread's depth is what it
      was plus what its own calls gained. */
  lemma {:induction false} RunDepth(ss: seq<State>, es: seq<Event>, th: Thread, lo: nat, hi: nat)
    requires Run(ss, es) && Inv(ss[0]) && lo <= hi <= |es|
    ensures Depth(ss[hi], th) == Depth(ss[lo], th) + NetGain(es, th, lo, hi)
  {
    hide Inv, Depth, Step;
    if lo < hi {
      RunDepth(ss, es, th, lo, hi - 1);
      RunInv(ss, es, hi - 1);
      var e := es[hi - 1];
      StepDepth(ss[hi - 1], e.th, e.a, ss[hi], th);
    }
  }

  // ----- Condition.wait -----

  /** A call of release returns, or is refused. */
  predicate Releases(a: Action) { a.Leave? || a.Post? || a.Refused? }

  /** A call of acquire returns with the lock. */
  predicate Acquires(a: Action) { a.Reenter? || a.Book? }

  /** From `lo` up to `hi` thread `th` does nothing but call release. */
  ghost predicate OnlyReleases(es: seq<Event>, th: Thread, lo: nat, hi: nat)
    requires lo <= hi <= |es|
  {
    forall i :: lo <= i < hi && es[i].th == th ==> Releases(es[i].a) || es[i].a.Unbook?
  }

  /** ... or nothing but call acquire, */
  ghost predicate OnlyAcquires(es: seq<Event>, th: Thread, lo: nat, hi: nat)
    requires lo <= hi <= |es|
  {
    forall i :: lo <= i < hi && es[i].th == th ==>
      Acquires(es[i].a) || es[i].a.EnterWait? || es[i].a.SemTake? || es[i].a.SemFail? || es[i].a.Unbook?
  }

  /** ... or nothing at all. */
  ghost predicate Absent(es: seq<Event>, th: Thread, lo: nat, hi: nat)
    requires lo <= hi <= |es|
  {
    forall i :: lo <= i < hi ==> es[i].th != th
  }

  /** How many of the events are calls of `th` that satisfy `p`. */
  ghost function Calls(es: seq<Event>, th: Thread, p: Action -> bool, lo: nat, hi: nat): nat
    requires lo <= hi <= |es|
  {
    if lo == hi then 0
    else Calls(es, th, p, lo, hi - 1) + (if es[hi - 1].th == th && p(es[hi - 1].a) then 1 else 0)
  }

  /** A step of one thread leaves the others where they are. */
  lemma StepPC(s: State, u: Thread, a: Action, s': State, th: Thread)
    requires Inv(s) && Step(s, u, a, s') && th in s.pcs
    ensures th in s'.pcs
    ensures u != th || Releases(a) || a.Unbook? ==> s'.pcs[th] == s.pcs[th]
  {
  }

  /** A call of acquire comes back with the lock one level deeper, or empty-handed and changing
      nobody's depth. */
  lemma AcquireAnswers(s: State, th: Thread, a: Action, s': State)
    requires Inv(s) && Step(s, th, a, s') && (Acquires(a) || a.SemFail?)
    ensures th in s'.pcs && s'.pcs[th].Idle?
    ensures Acquires(a) ==> Depth(s', th) == Depth(s, th) + 1 && s'.sem == 0
    ensures a.SemFail? ==> s'.sem == s.sem && forall other :: Depth(s', other) == Depth(s, other)
  {
    StepDepth(s, th, a, s', th);
    StepInv(s, th, a, s');
    if Acquires(a) {
      AtMostOneOwner(s', th, th);
    }
  }

  /** A forked child has a copy of the forking thread, which does not own the lock, neither before
      nor after the after-fork hook. */
  lemma ForkGivesNothing(s: State, th: Thread, child: Pid, s': State)
    requires Inv(s) && Step(s, th, Fork(child), s')
    ensures var copy := Thread(child, th.tid);
            && copy in s'.pcs && s'.pcs[copy].Idle? && !Owns(s', copy)
            && Enabled(s', copy, AfterFork) && !Owns(Do(s', copy, AfterFork), copy)
            && Enabled(Do(s', copy, AfterFork), copy, EnterWait)
            && Depth(s', th) == Depth(s, th)
  {
    StepDepth(s, th, Fork(child), s', th);
  }

  /** Nobody is kept from calling: a thread that is not inside a call can acquire, going deeper if it
      owns the lock and waiting if not, and release or be refused; one that waits can always give
      up, and gets the lock as soon as the semaphore is free. */
  lemma NobodyKept(s: State, th: Thread)
    requires Inv(s) && th in s.pcs && s.procs[th.pid].hookRan && s.procs[th.pid].posting.None?
    ensures s.pcs[th].Idle? ==> (Enabled(s, th, Reenter) <==> Depth(s, th) > 0)
    ensures s.pcs[th].Idle? ==> (Enabled(s, th, EnterWait) <==> Depth(s, th) == 0)
    ensures s.pcs[th].InSemWait? ==> Enabled(s, th, SemFail) && (Enabled(s, th, SemTake) <==> s.sem == 1)
    ensures s.pcs[th].GotToken? ==> Enabled(s, th, Book)
  {
  }

  /** The owner's release is not refused. */
  lemma OwnerNotRefused(s: State, th: Thread, a: Action, s': State)
    requires Step(s, th, a, s') && Depth(s, th) > 0
    ensures !a.Refused?
  {
  }

  /** As many releases as the thread is deep: none of them is refused. */
  lemma {:induction false} ReleasesSucceed(ss: seq<State>, es: seq<Event>, th: Thread, lo: nat, hi: nat)
    requires Run(ss, es) && Inv(ss[0]) && lo <= hi <= |es| && th in ss[lo].pcs && OnlyReleases(es, th, lo, hi)
    requires Calls(es, th, Releases, lo, hi) <= Depth(ss[lo], th)
    ensures forall i :: lo <= i < hi && es[i].th == th ==> !es[i].a.Refused?
    ensures Depth(ss[hi], th) == Depth(ss[lo], th) - Calls(es, th, Releases, lo, hi)
    ensures th in ss[hi].pcs && ss[hi].pcs[th] == ss[lo].pcs[th]
  {
    hide Inv, Depth, Step;
    if lo < hi {
      var s, e := ss[hi - 1], es[hi - 1];
      ReleasesSucceed(ss, es, th, lo, hi - 1);
      RunInv(ss, es, hi - 1);
      StepPC(s, e.th, e.a, ss[hi], th);
      StepDepth(s, e.th, e.a, ss[hi], th);
      if e.th == th && Releases(e.a) {
        OwnerNotRefused(s, th, e.a, ss[hi]);
      }
    }
  }

  /** While a thread does nothing, its depth and its place do not change. */
  lemma {:induction false} AbsentStays(ss: seq<State>, es: seq<Event>, th: Thread, lo: nat, hi: nat)
    requires Run(ss, es) && Inv(ss[0]) && lo <= hi <= |es| && th in ss[lo].pcs && Absent(es, th, lo, hi)
    ensures Depth(ss[hi], th) == Depth(ss[lo], th)
    ensures th in ss[hi].pcs && ss[hi].pcs[th] == ss[lo].pcs[th]
  {
    hide Inv, Depth, Step;
    if lo < hi {
      var s, e := ss[hi - 1], es[hi - 1];
      AbsentStays(ss, es, th, lo, hi - 1);
      RunInv(ss, es, hi - 1);
      StepPC(s, e.th, e.a, ss[hi], th);
      StepDepth(s, e.th, e.a, ss[hi], th);
    }
  }

  lemma {:induction false} AcquiresGain(es: seq<Event>, th: Thread, lo: nat, hi: nat)
    requires lo <= hi <= |es| && OnlyAcquires(es, th, lo, hi)
    ensures NetGain(es, th, lo, hi) == Calls(es, th, Acquires, lo, hi)
  {
    if lo < hi {
      AcquiresGain(es, th, lo, hi - 1);
    }
  }

  /** Condition.wait entered `k` deep, anywhere in a run: from `call` up to `nap` the thread calls
      release k times, up to `wake` it sleeps, and up to `back` it acquires k times, while
      everybody else may do anything all the time.  No release is refused; while it sleeps it
      neither owns the lock nor has its token; and it returns owning the lock k deep. */
  lemma WaitRestoresDepth(ss: seq<State>, es: seq<Event>, th: Thread, k: nat,
                          call: nat, nap: nat, wake: nat, back: nat)
    requires Run(ss, es) && Init(ss[0]) && call <= nap <= wake <= back <= |es|
    requires th in ss[call].pcs && Depth(ss[call], th) == k > 0
    requires OnlyReleases(es, th, call, nap) && Calls(es, th, Releases, call, nap) == k
    requires Absent(es, th, nap, wake)
    requires OnlyAcquires(es, th, wake, back) && Calls(es, th, Acquires, wake, back) == k
    ensures forall i :: call <= i < nap && es[i].th == th ==> !es[i].a.Refused?
    ensures forall i :: nap <= i <= wake ==> !Owns(ss[i], th)
    ensures Depth(ss[back], th) == k
  {
    hide Inv, Depth, Step, Init;
    InitInv(ss[0]);
    RunInv(ss, es, call);
    OwnerHasNoToken(ss[call], th);
    ReleasesSucceed(ss, es, th, call, nap);
    forall i | nap <= i <= wake
      ensures !Owns(ss[i], th) && Depth(ss[i], th) == 0
    {
      AbsentStays(ss, es, th, nap, i);
    }
    AcquiresGain(es, th, wake, back);
    RunDepth(ss, es, th, wake, back);
  }

  lemma OwnerHasNoToken(s: State, th: Thread)
    requires Inv(s) && th in s.pcs && Depth(s, th) > 0
    ensures !s.pcs[th].GotToken?
  {
    if s.pcs[th].GotToken? {
      TokenExcludes(s, th);
    }
  }
}
