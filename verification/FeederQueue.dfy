/**
 * The multi-process queue of billiard/queues.py: a bounded semaphore, and in every process
 * that puts a buffer and a feeder thread which moves the buffer's items to a pipe shared by
 * all.  A step is one semaphore, lock, buffer or pipe operation of one thread; the queue's
 * write and read locks make sending and receiving a message one step.  Serialisation
 * succeeds, and no put is under way in a process when it closes the queue.
 */
module FeederQueue {
  import opened Optional
  import opened Tally

  type Pid = nat
  type Tid = nat
  type Item = nat

  datatype Entry = Obj(item: Item) | Sentinel

  /** A thread inside `put`. */
  datatype Putter =
    | Admitted(item: Item)       // has acquired the semaphore
    | Locked(item: Item)         // ... and the lock of `_notempty`
    | Appended                   // has appended the item, is about to notify and unlock

  datatype Feeder =
    | NotStarted
    | Acquiring                  // nacquire()
    | Checking                   // holds the lock: if not buffer: nwait()
    | Waiting(notified: bool)    // in nwait()
    | Popping                    // bpopleft()
    | Sending(item: Item)        // send_bytes(obj)
    | Stopped

  datatype Owner = Nobody | FeederThread | PutterThread(tid: Tid)

  /** The queue object of one process. */
  datatype Proc = Proc(
    closed: bool,
    buffer: seq<Entry>,
    feeder: Feeder,
    lock: Owner,
    putters: map<Tid, Putter>)

  /** An item and the process that has put it. */
  datatype Sent = Sent(pid: Pid, item: Item)

  /** `getters` have received an item and not yet released the semaphore.  `received` and
      `put` are history: all items received so far, and what each process has appended.
      `overflow` says that a release of the bounded semaphore has failed. */
  datatype State = State(
    maxsize: nat,
    sem: nat,
    procs: map<Pid, Proc>,
    pipe: seq<Sent>,
    getters: map<Tid, Sent>,
    received: seq<Sent>,
    put: map<Pid, seq<Item>>,
    overflow: bool)

  datatype Action =
    | PutAcquire(p: Pid, t: Tid, item: Item)
    | PutLock(p: Pid, t: Tid)
    | PutAppend(p: Pid, t: Tid)
    | PutNotify(p: Pid, t: Tid)
    | FeedStep(p: Pid)
    | Close(p: Pid)
    | Get(g: Tid)
    | GetRelease(g: Tid)
    | Fork(p: Pid)

  // ----- One process -----

  /** notify(): wakes the feeder if it waits. */
  function Notified(f: Feeder): Feeder {
    if f.Waiting? then Waiting(true) else f
  }

  predicate CanFeed(p: Proc) {
    match p.feeder
    case NotStarted => false
    case Acquiring => p.lock.Nobody?
    case Checking => true
    case Waiting(notified) => notified && p.lock.Nobody?
    case Popping => true
    case Sending(_) => true
    case Stopped => false
  }

  /** The feeder's next instruction, but for what it sends. */
  function Feed(p: Proc): Proc {
    match p.feeder
    case Acquiring => p.(feeder := Checking, lock := FeederThread)
    case Checking => p.(feeder := if p.buffer == [] then Waiting(false) else Popping, lock := Nobody)
    case Waiting(_) => p.(feeder := Popping)
    case Popping =>
      if p.buffer == [] then p.(feeder := Acquiring)
      else p.(feeder := if p.buffer[0].Sentinel? then Stopped else Sending(p.buffer[0].item), buffer := p.buffer[1..])
    case Sending(_) => p.(feeder := Popping)
    case _ => p
  }

  function Appending(p: Proc, t: Tid, item: Item): Proc {
    // _start_thread clears the buffer
    var started := if p.feeder.NotStarted? then p.(buffer := [], feeder := Acquiring) else p;
    started.(buffer := started.buffer + [Obj(item)], putters := p.putters[t := Appended])
  }

  function Closing(p: Proc): Proc {
    if p.feeder.NotStarted? then p.(closed := true)
    else p.(closed := true, buffer := p.buffer + [Sentinel], feeder := Notified(p.feeder))
  }

  predicate Known(s: State, p: Pid) {
    p in s.procs && p in s.put
  }

  /** Thread t of process p is inside `put`. */
  predicate Putting(s: State, p: Pid, t: Tid) {
    Known(s, p) && t in s.procs[p].putters
  }

  predicate Enabled(s: State, a: Action) {
    match a
    case Get(g) => g !in s.getters && s.pipe != []
    case GetRelease(g) => g in s.getters
    case Fork(p) => p !in s.procs && p !in s.put
    case PutAcquire(p, t, _) => Known(s, p) && s.sem > 0 && !s.procs[p].closed && t !in s.procs[p].putters
    case PutLock(p, t) => Putting(s, p, t) && s.procs[p].putters[t].Admitted? && s.procs[p].lock.Nobody?
    case PutAppend(p, t) => Putting(s, p, t) && s.procs[p].putters[t].Locked?
    case PutNotify(p, t) => Putting(s, p, t) && s.procs[p].putters[t].Appended?
    case FeedStep(p) => Known(s, p) && CanFeed(s.procs[p])
    case Close(p) => Known(s, p) && !s.procs[p].closed && s.procs[p].lock.Nobody? && s.procs[p].putters == map[]
  }

  /** The process after its own step. */
  function DoProc(s: State, a: Action): Proc
    requires Enabled(s, a) && !a.Get? && !a.GetRelease?
  {
    match a
    case Fork(_) => Proc(false, [], NotStarted, Nobody, map[])
    case PutAcquire(p, t, item) => s.procs[p].(putters := s.procs[p].putters[t := Admitted(item)])
    case PutLock(p, t) =>
      s.procs[p].(lock := PutterThread(t), putters := s.procs[p].putters[t := Locked(s.procs[p].putters[t].item)])
    case PutAppend(p, t) => Appending(s.procs[p], t, s.procs[p].putters[t].item)
    case PutNotify(p, t) =>
      s.procs[p].(feeder := Notified(s.procs[p].feeder), lock := Nobody, putters := s.procs[p].putters - {t})
    case FeedStep(p) => Feed(s.procs[p])
    case Close(p) => Closing(s.procs[p])
  }

  function Do(s: State, a: Action): State
    requires Enabled(s, a)
  {
    match a
    case Get(g) =>
      s.(pipe := s.pipe[1..], getters := s.getters[g := s.pipe[0]], received := s.received + [s.pipe[0]])
    case GetRelease(g) =>
      if s.sem < s.maxsize then s.(sem := s.sem + 1, getters := s.getters - {g}) else s.(overflow := true)
    case Fork(p) => s.(procs := s.procs[p := DoProc(s, a)], put := s.put[p := []])
    case PutAcquire(p, _, _) => s.(sem := s.sem - 1, procs := s.procs[p := DoProc(s, a)])
    case PutAppend(p, t) =>
      s.(procs := s.procs[p := DoProc(s, a)], put := s.put[p := s.put[p] + [s.procs[p].putters[t].item]])
    case FeedStep(p) =>
      var s' := s.(procs := s.procs[p := DoProc(s, a)]);
      if s.procs[p].feeder.Sending? then s'.(pipe := s.pipe + [Sent(p, s.procs[p].feeder.item)]) else s'
    case PutLock(p, _) => s.(procs := s.procs[p := DoProc(s, a)])
    case PutNotify(p, _) => s.(procs := s.procs[p := DoProc(s, a)])
    case Close(p) => s.(procs := s.procs[p := DoProc(s, a)])
  }

  predicate Init(s: State) {
    s.sem == s.maxsize && s.procs == map[] && s.pipe == [] && s.getters == map[] &&
    s.received == [] && s.put == map[] && !s.overflow
  }

  // ----- What a process holds -----

  function Item1(e: Entry): seq<Item> {
    if e.Obj? then [e.item] else []
  }

  /** The items in a buffer. */
  function Items(b: seq<Entry>): seq<Item> {
    if b == [] then [] else Item1(b[0]) + Items(b[1..])
  }

  lemma {:induction false} ItemsSnoc(b: seq<Entry>, e: Entry)
    ensures Items(b + [e]) == Items(b) + Item1(e)
  {
    hide Item1;
    if b == [] {
      assert b + [e] == [e];
    } else {
      ItemsSnoc(b[1..], e);
      calc {
        Items(b + [e]);
      ==  { assert (b + [e])[1..] == b[1..] + [e]; }
        Item1(b[0]) + Items(b[1..] + [e]);
      ==
        Item1(b[0]) + (Items(b[1..]) + Item1(e));
      ==
        Items(b) + Item1(e);
      }
    }
  }

  /** The items that have left the buffer and not reached the pipe, then those in the buffer. */
  function Outgoing(p: Proc): seq<Item> {
    (if p.feeder.Sending? then [p.feeder.item] else []) + Items(p.buffer)
  }

  predicate Carrying(t: Putter) { !t.Appended? }

  /** How many items of the queue the process holds. */
  ghost function Held(p: Proc): nat {
    Count(p.putters, Carrying) + |Outgoing(p)|
  }

  /** The items of process p in a list of sent items, in order. */
  function From(ss: seq<Sent>, p: Pid): seq<Item> {
    if ss == [] then []
    else
      var n := |ss| - 1;
      From(ss[..n], p) + (if ss[n].pid == p then [ss[n].item] else [])
  }

  lemma FromSnoc(ss: seq<Sent>, x: Sent, p: Pid)
    ensures From(ss + [x], p) == From(ss, p) + (if x.pid == p then [x.item] else [])
  {
    assert (ss + [x])[..|ss|] == ss;
  }

  // ----- The invariant of one process -----

  ghost predicate LockOk(p: Proc) {
    && (p.lock.FeederThread? <==> p.feeder.Checking?)
    && (forall t :: t in p.putters ==> (p.lock == PutterThread(t) <==> !p.putters[t].Admitted?))
    && (p.lock.PutterThread? ==> p.lock.tid in p.putters)
  }

  /** The putter holding the lock has appended and is about to notify. */
  predicate AboutToNotify(p: Proc) {
    p.lock.PutterThread? && p.lock.tid in p.putters && p.putters[p.lock.tid].Appended?
  }

  ghost predicate ProcOk(p: Proc) {
    && LockOk(p)
    && (p.feeder.NotStarted? ==> p.buffer == [])
    && (p.feeder == Waiting(false) && p.buffer != [] ==> AboutToNotify(p))
    && (p.closed ==> p.putters == map[])
    && (forall k :: 0 <= k < |p.buffer| && p.buffer[k].Sentinel? ==> p.closed && k == |p.buffer| - 1)
    && (p.feeder.Stopped? ==> p.closed && p.buffer == [])
    && (p.closed && !p.feeder.NotStarted? && !p.feeder.Stopped? ==>
          p.buffer != [] && p.buffer[|p.buffer| - 1].Sentinel?)
  }

  /** What has left process p and what it is to send is what has been put there, in order. */
  ghost predicate Ordered(s: State, p: Pid) {
    && (p in s.procs ==> p in s.put && From(s.received + s.pipe, p) + Outgoing(s.procs[p]) == s.put[p])
    && (p !in s.procs ==> From(s.received + s.pipe, p) == [])
  }

  ghost predicate Inv(s: State) {
    && s.sem + Sum(s.procs, Held) + |s.pipe| + |s.getters| == s.maxsize
    && !s.overflow
    && (forall p :: p in s.procs ==> ProcOk(s.procs[p]))
    && (forall p :: p in s.put <==> p in s.procs)
    && (forall p :: Ordered(s, p))
  }

  lemma InitInv(s: State)
    requires Init(s)
    ensures Inv(s)
  {
  }

  // ----- Steps of one process -----

  /** The process that takes the step, if it is not a getter's. */
  function Actor(a: Action): Option<Pid> {
    match a
    case Get(_) => None
    case GetRelease(_) => None
    case Fork(p) => Some(p)
    case PutAcquire(p, _, _) => Some(p)
    case PutLock(p, _) => Some(p)
    case PutAppend(p, _) => Some(p)
    case PutNotify(p, _) => Some(p)
    case FeedStep(p) => Some(p)
    case Close(p) => Some(p)
  }

  lemma FeedOk(p: Proc)
    requires ProcOk(p) && CanFeed(p)
    ensures ProcOk(Feed(p))
    ensures Feed(p).putters == p.putters
    ensures (if p.feeder.Sending? then [p.feeder.item] else []) + Outgoing(Feed(p)) == Outgoing(p)
  {
    if p.feeder.Popping? && p.buffer != [] {
      assert p.buffer == [p.buffer[0]] + p.buffer[1..];
    }
  }

  lemma AppendOk(p: Proc, t: Tid)
    requires ProcOk(p) && t in p.putters && p.putters[t].Locked?
    ensures ProcOk(Appending(p, t, p.putters[t].item))
    ensures Outgoing(Appending(p, t, p.putters[t].item)) == Outgoing(p) + [p.putters[t].item]
  {
    ItemsSnoc(p.buffer, Obj(p.putters[t].item));
  }

  lemma CloseOk(p: Proc)
    requires ProcOk(p) && !p.closed && p.lock.Nobody? && p.putters == map[]
    ensures ProcOk(Closing(p)) && Outgoing(Closing(p)) == Outgoing(p)
  {
    ItemsSnoc(p.buffer, Sentinel);
  }

  /** A putter gets past the semaphore. */
  lemma AdmitOk(p: Proc, t: Tid, item: Item)
    requires ProcOk(p) && !p.closed && t !in p.putters
    ensures ProcOk(p.(putters := p.putters[t := Admitted(item)]))
  {
    assert p.lock != PutterThread(t);
  }

  /** A putter takes the lock. */
  lemma LockPutOk(p: Proc, t: Tid)
    requires ProcOk(p) && t in p.putters && p.putters[t].Admitted? && p.lock.Nobody?
    ensures ProcOk(p.(lock := PutterThread(t), putters := p.putters[t := Locked(p.putters[t].item)]))
  {
    assert !p.closed;
  }

  /** A putter notifies the feeder and leaves. */
  lemma NotifyOk(p: Proc, t: Tid)
    requires ProcOk(p) && t in p.putters && p.putters[t].Appended?
    ensures ProcOk(p.(feeder := Notified(p.feeder), lock := Nobody, putters := p.putters - {t}))
  {
    assert p.lock == PutterThread(t) && !p.closed;
  }

  lemma PutterOk(s: State, a: Action, p: Pid)
    requires Inv(s) && Enabled(s, a) && Actor(a) == Some(p)
    requires a.PutAcquire? || a.PutLock? || a.PutNotify?
    ensures ProcOk(DoProc(s, a)) && Outgoing(DoProc(s, a)) == Outgoing(s.procs[p])
  {
    hide Items, From, Sum, Count, Ordered, ProcOk;
    assert ProcOk(s.procs[p]);
    match a
    case PutAcquire(_, t, item) => AdmitOk(s.procs[p], t, item);
    case PutLock(_, t) => LockPutOk(s.procs[p], t);
    case PutNotify(_, t) => NotifyOk(s.procs[p], t);
  }

  lemma StepProcOk(s: State, a: Action, p: Pid)
    requires Inv(s) && Enabled(s, a) && Actor(a) == Some(p)
    ensures ProcOk(DoProc(s, a))
  {
    hide Items;
    if p in s.procs {
      assert ProcOk(s.procs[p]);
      if a.FeedStep? {
        FeedOk(s.procs[p]);
      } else if a.PutAppend? {
        AppendOk(s.procs[p], a.t);
      } else if a.Close? {
        CloseOk(s.procs[p]);
      } else {
        PutterOk(s, a, p);
      }
    } else {
      assert a.Fork?;
    }
  }

  /** How the items that the process is to send change. */
  lemma StepOutgoing(s: State, a: Action, p: Pid)
    requires Inv(s) && Enabled(s, a) && Actor(a) == Some(p) && p in s.procs
    ensures a.PutAppend? ==> Outgoing(DoProc(s, a)) == Outgoing(s.procs[p]) + [s.procs[p].putters[a.t].item]
    ensures a.FeedStep? && s.procs[p].feeder.Sending? ==>
              [s.procs[p].feeder.item] + Outgoing(DoProc(s, a)) == Outgoing(s.procs[p])
    ensures !a.PutAppend? && !(a.FeedStep? && s.procs[p].feeder.Sending?) ==>
              Outgoing(DoProc(s, a)) == Outgoing(s.procs[p])
  {
    hide Items, Outgoing;
    assert ProcOk(s.procs[p]);
    if a.FeedStep? {
      FeedOk(s.procs[p]);
    } else if a.PutAppend? {
      AppendOk(s.procs[p], a.t);
    } else if a.Close? {
      CloseOk(s.procs[p]);
    } else {
      PutterOk(s, a, p);
    }
  }

  lemma StepCarrying(s: State, a: Action, p: Pid)
    requires Enabled(s, a) && Actor(a) == Some(p) && p in s.procs
    ensures Count(DoProc(s, a).putters, Carrying) ==
            Count(s.procs[p].putters, Carrying)
            + (if a.PutAcquire? then 1 else if a.PutAppend? then -1 else 0)
  {
    hide Count;
    var ts: map<Tid, Putter> := s.procs[p].putters;
    match a
    case PutAcquire(_, t, item) => CountUpdate(ts, Carrying, t, Admitted(item));
    case PutLock(_, t) => CountUpdate(ts, Carrying, t, Locked(ts[t].item));
    case PutAppend(_, t) => CountUpdate(ts, Carrying, t, Appended);
    case PutNotify(_, t) => CountRemove(ts, Carrying, t);
    case _ =>
  }

  /** How the number of items that the process holds changes. */
  lemma StepHeld(s: State, a: Action, p: Pid)
    requires Inv(s) && Enabled(s, a) && Actor(a) == Some(p)
    ensures p in s.procs ==>
              Held(DoProc(s, a)) == Held(s.procs[p]) + (if a.PutAcquire? then 1 else 0)
                                    - (if a.FeedStep? && s.procs[p].feeder.Sending? then 1 else 0)
    ensures p !in s.procs ==> Held(DoProc(s, a)) == 0
  {
    hide Outgoing, ProcOk;
    if p in s.procs {
      StepOutgoing(s, a, p);
      StepCarrying(s, a, p);
    } else {
      NothingHeld();
    }
  }

  lemma NothingHeld()
    ensures Held(Proc(false, [], NotStarted, Nobody, map[])) == 0
  {
    var none: map<Tid, Putter> := map[];
    CountWitness(none, Carrying);
  }

  // ----- Steps of the system -----

  lemma StepConserves(s: State, a: Action)
    requires Inv(s) && Enabled(s, a)
    ensures var s' := Do(s, a); s'.sem + Sum(s'.procs, Held) + |s'.pipe| + |s'.getters| == s'.maxsize && !s'.overflow
  {
    hide Held, ProcOk, Sum, From, Outgoing, Ordered, DoProc;
    match Actor(a)
    case None =>
      if a.Get? {
        SizeUpdate(s.getters, a.g, s.pipe[0]);
      } else {
        SizeRemove(s.getters, a.g);
      }
    case Some(p) =>
      StepHeld(s, a, p);
      SumUpdate(s.procs, Held, p, DoProc(s, a));
  }

  lemma StepOrder(s: State, a: Action, q: Pid)
    requires Inv(s) && Enabled(s, a)
    ensures Ordered(Do(s, a), q)
  {
    hide Do, Inv, Ordered;
    match Actor(a)
    case None => GetOrder(s, a, q);
    case Some(p) =>
      if a.FeedStep? && s.procs[p].feeder.Sending? {
        SendOrder(s, p, q);
      } else {
        ProcOrder(s, a, p, q);
      }
  }

  /** A getter moves. */
  lemma GetOrder(s: State, a: Action, q: Pid)
    requires Inv(s) && Enabled(s, a) && Actor(a).None?
    ensures Ordered(Do(s, a), q)
  {
    hide ProcOk, Sum, Held, Outgoing, From, DoProc;
    assert Ordered(s, q);
    if a.Get? {
      assert Do(s, a).received + Do(s, a).pipe == s.received + s.pipe by {
        assert s.pipe == [s.pipe[0]] + s.pipe[1..];
      }
    }
  }

  /** A process moves without sending. */
  lemma ProcOrder(s: State, a: Action, p: Pid, q: Pid)
    requires Inv(s) && Enabled(s, a) && Actor(a) == Some(p)
    requires !(a.FeedStep? && s.procs[p].feeder.Sending?)
    ensures Ordered(Do(s, a), q)
  {
    hide ProcOk, Sum, Held, Outgoing, From, DoProc;
    assert Ordered(s, q);
    if p in s.procs {
      StepOutgoing(s, a, p);
    } else {
      StepForked(s, a, p);
    }
  }

  lemma SendOrder(s: State, p: Pid, q: Pid)
    requires Inv(s) && Enabled(s, FeedStep(p)) && s.procs[p].feeder.Sending?
    ensures Ordered(Do(s, FeedStep(p)), q)
  {
    hide ProcOk, Sum, Held, Outgoing, From, DoProc;
    assert Ordered(s, q);
    StepOutgoing(s, FeedStep(p), p);
    var x := Sent(p, s.procs[p].feeder.item);
    var s' := Do(s, FeedStep(p));
    assert s'.received + s'.pipe == (s.received + s.pipe) + [x];
    FromSnoc(s.received + s.pipe, x, q);
  }

  lemma StepForked(s: State, a: Action, p: Pid)
    requires Enabled(s, a) && Actor(a) == Some(p) && p !in s.procs
    ensures a.Fork? && Outgoing(DoProc(s, a)) == []
  {
  }

  lemma StepDomains(s: State, a: Action)
    requires Inv(s) && Enabled(s, a)
    ensures forall q :: q in Do(s, a).put <==> q in Do(s, a).procs
  {
    hide ProcOk, Sum, Held, Outgoing, From, DoProc;
  }

  lemma StepProcs(s: State, a: Action)
    requires Inv(s) && Enabled(s, a)
    ensures forall q :: q in Do(s, a).procs ==> ProcOk(Do(s, a).procs[q])
  {
    hide ProcOk, Sum, Held, Outgoing, From, DoProc;
    match Actor(a)
    case None =>
    case Some(p) => StepProcOk(s, a, p);
  }

  lemma StepInv(s: State, a: Action)
    requires Inv(s) && Enabled(s, a)
    ensures Inv(Do(s, a))
  {
    hide ProcOk, Sum, Held, Outgoing, From, Do;
    StepConserves(s, a);
    StepDomains(s, a);
    StepProcs(s, a);
    forall q: Pid
      ensures Ordered(Do(s, a), q)
    {
      StepOrder(s, a, q);
    }
  }

  // ----- Runs -----

  ghost predicate Run(ss: seq<State>, acts: seq<Action>) {
    && |ss| == |acts| + 1
    && forall i {:trigger acts[i]} :: 0 <= i < |acts| ==>
         Enabled(ss[i], acts[i]) && ss[i + 1] == Do(ss[i], acts[i])
  }

  lemma {:induction false} RunInv(ss: seq<State>, acts: seq<Action>, i: nat)
    requires Run(ss, acts) && Init(ss[0]) && i < |ss|
    ensures Inv(ss[i])
  {
    hide Inv, Init, Do, Enabled;
    if i == 0 {
      InitInv(ss[0]);
    } else {
      RunInv(ss, acts, i - 1);
      StepInv(ss[i - 1], acts[i - 1]);
    }
  }

  /** In every run, the semaphore's value and the items held by putters, buffers, feeders, pipe
      and getters add up to maxsize, and the bounded semaphore is never released too often. */
  lemma Conservation(ss: seq<State>, acts: seq<Action>, i: nat)
    requires Run(ss, acts) && Init(ss[0]) && i < |ss|
    ensures ss[i].sem + Sum(ss[i].procs, Held) + |ss[i].pipe| + |ss[i].getters| == ss[i].maxsize
    ensures !ss[i].overflow && ss[i].maxsize == ss[0].maxsize
  {
    RunInv(ss, acts, i);
    SizeStays(ss, acts, i);
  }

  lemma {:induction false} SizeStays(ss: seq<State>, acts: seq<Action>, i: nat)
    requires Run(ss, acts) && i < |ss|
    ensures ss[i].maxsize == ss[0].maxsize
  {
    if i > 0 {
      SizeStays(ss, acts, i - 1);
      assert Enabled(ss[i - 1], acts[i - 1]);
    }
  }

  /** How many of the first n events are calls of put that have been admitted, items got, and
      calls of get that have released the semaphore. */
  ghost function Admissions(acts: seq<Action>, n: nat): nat
    requires n <= |acts|
  {
    if n == 0 then 0 else Admissions(acts, n - 1) + (if acts[n - 1].PutAcquire? then 1 else 0)
  }

  ghost function Gets(acts: seq<Action>, n: nat): nat
    requires n <= |acts|
  {
    if n == 0 then 0 else Gets(acts, n - 1) + (if acts[n - 1].Get? then 1 else 0)
  }

  ghost function Releases(acts: seq<Action>, n: nat): nat
    requires n <= |acts|
  {
    if n == 0 then 0 else Releases(acts, n - 1) + (if acts[n - 1].GetRelease? then 1 else 0)
  }

  lemma StepSemaphore(s: State, a: Action)
    requires Inv(s) && Enabled(s, a)
    ensures Do(s, a).sem == s.sem - (if a.PutAcquire? then 1 else 0) + (if a.GetRelease? then 1 else 0)
    ensures |Do(s, a).getters| == |s.getters| + (if a.Get? then 1 else 0) - (if a.GetRelease? then 1 else 0)
  {
    hide ProcOk, Held, Sum, From, Outgoing, Ordered, DoProc;
    StepConserves(s, a);
    if a.Get? {
      SizeUpdate(s.getters, a.g, s.pipe[0]);
    } else if a.GetRelease? {
      SizeRemove(s.getters, a.g);
    }
  }

  /** In every run the semaphore stands at maxsize, less one for every put that was admitted, plus
      one for every get that has returned; so as many puts are admitted as there is room. */
  lemma {:induction false} SemaphoreIsEvents(ss: seq<State>, acts: seq<Action>, n: nat)
    requires Run(ss, acts) && Init(ss[0]) && n < |ss|
    ensures ss[n].sem == ss[0].maxsize - Admissions(acts, n) + Releases(acts, n)
    ensures |ss[n].getters| == Gets(acts, n) - Releases(acts, n)
  {
    hide Inv, Init, Do, Enabled;
    if n == 0 {
      FreshSemaphore(ss[0]);
    } else {
      SemaphoreIsEvents(ss, acts, n - 1);
      RunInv(ss, acts, n - 1);
      var s, a := ss[n - 1], acts[n - 1];
      assert Enabled(s, a) && ss[n] == Do(s, a);
      StepSemaphore(s, a);
    }
  }

  lemma FreshSemaphore(s: State)
    requires Init(s)
    ensures s.sem == s.maxsize && |s.getters| == 0
  {
  }

  /** A put is admitted exactly if the queue is open and there is room; a queue can be closed when no
      put is under way; an item in the pipe can be got, and a get that has its item can return. */
  lemma CallsAdmitted(s: State, p: Pid, t: Tid, item: Item)
    requires Inv(s) && p in s.procs && t !in s.procs[p].putters
    ensures Enabled(s, PutAcquire(p, t, item)) <==> s.sem > 0 && !s.procs[p].closed
    ensures s.procs[p].putters == map[] && s.procs[p].lock.Nobody? && !s.procs[p].closed ==> Enabled(s, Close(p))
    ensures t !in s.getters ==> (Enabled(s, Get(t)) <==> s.pipe != [])
    ensures t in s.getters ==> Enabled(s, GetRelease(t))
  {
  }

  /** A feeder stands still exactly if it has not been started or has stopped, waits without having
      been notified, or needs the lock while somebody holds it. */
  lemma FeederBlocks(s: State, p: Pid)
    requires Inv(s) && p in s.procs
    ensures !Enabled(s, FeedStep(p)) <==>
            var f := s.procs[p].feeder;
            || f.NotStarted? || f.Stopped? || f == Waiting(false)
            || ((f.Acquiring? || f == Waiting(true)) && !s.procs[p].lock.Nobody?)
  {
  }

  /** No deadlock over the lock of a process: whoever holds it can take a step. */
  lemma LockHolderMoves(s: State, p: Pid)
    requires Inv(s) && p in s.procs && !s.procs[p].lock.Nobody?
    ensures exists a :: Actor(a) == Some(p) && Enabled(s, a) &&
              match s.procs[p].lock
              case FeederThread => a == FeedStep(p)
              case PutterThread(t) => a == PutAppend(p, t) || a == PutNotify(p, t)
  {
    assert ProcOk(s.procs[p]);
    match s.procs[p].lock
    case FeederThread => assert Enabled(s, FeedStep(p));
    case PutterThread(t) =>
      if s.procs[p].putters[t].Appended? {
        assert Enabled(s, PutNotify(p, t));
      } else {
        assert Enabled(s, PutAppend(p, t));
      }
  }

  // ----- What is put and what is got, told from the events alone -----

  /** The item of the latest call of put by thread t of process p, among the first n events. */
  ghost function Wanted(acts: seq<Action>, p: Pid, t: Tid, n: nat): Option<Item>
    requires n <= |acts|
  {
    if n == 0 then None
    else
      match acts[n - 1]
      case PutAcquire(q, u, item) => if q == p && u == t then Some(item) else Wanted(acts, p, t, n - 1)
      case _ => Wanted(acts, p, t, n - 1)
  }

  /** The items put in process p, in the order in which they were appended. */
  ghost function PutLog(acts: seq<Action>, p: Pid, n: nat): seq<Item>
    requires n <= |acts|
  {
    if n == 0 then []
    else
      match acts[n - 1]
      case PutAppend(q, t) =>
        PutLog(acts, p, n - 1)
        + (if q == p && Wanted(acts, p, t, n - 1).Some? then [Wanted(acts, p, t, n - 1).value] else [])
      case _ => PutLog(acts, p, n - 1)
  }

  /** What the calls of get have brought to their callers, of the items of process p. */
  ghost function GotLog(ss: seq<State>, acts: seq<Action>, p: Pid, n: nat): seq<Item>
    requires n <= |acts| && |ss| == |acts| + 1
  {
    if n == 0 then []
    else
      match acts[n - 1]
      case Get(g) =>
        GotLog(ss, acts, p, n - 1)
        + (if g in ss[n].getters && ss[n].getters[g].pid == p then [ss[n].getters[g].item] else [])
      case _ => GotLog(ss, acts, p, n - 1)
  }

  /** A thread inside put carries the item it was called with. */
  lemma StepWanted(s: State, a: Action, p: Pid, t: Tid)
    requires Inv(s) && Enabled(s, a) && Putting(Do(s, a), p, t) && !Do(s, a).procs[p].putters[t].Appended?
    ensures var item := Do(s, a).procs[p].putters[t].item;
            || a == PutAcquire(p, t, item)
            || (Putting(s, p, t) && !s.procs[p].putters[t].Appended? && s.procs[p].putters[t].item == item &&
                forall other :: a != PutAcquire(p, t, other))
  {
    hide ProcOk, Sum, Held, Outgoing, From, Ordered;
  }

  lemma {:induction false} WantedIsCarried(ss: seq<State>, acts: seq<Action>, n: nat, p: Pid, t: Tid)
    requires Run(ss, acts) && Init(ss[0]) && n < |ss|
    requires Putting(ss[n], p, t) && !ss[n].procs[p].putters[t].Appended?
    ensures Wanted(acts, p, t, n) == Some(ss[n].procs[p].putters[t].item)
  {
    hide Inv, Do, Enabled;
    assert n > 0;
    RunInv(ss, acts, n - 1);
    StepWanted(ss[n - 1], acts[n - 1], p, t);
    var item := ss[n].procs[p].putters[t].item;
    if acts[n - 1] != PutAcquire(p, t, item) {
      WantedIsCarried(ss, acts, n - 1, p, t);
    }
  }

  /** How an event changes what was put and what was received. */
  lemma StepLogs(s: State, a: Action, p: Pid)
    requires Inv(s) && Enabled(s, a)
    ensures var s' := Do(s, a);
            && s'.received == s.received + (if a.Get? then [s.pipe[0]] else [])
            && (a.Get? ==> a.g in s'.getters && s'.getters[a.g] == s.pipe[0])
            && PutSoFar(s', p) ==
                 PutSoFar(s, p) + (if a.PutAppend? && a.p == p then [s.procs[p].putters[a.t].item] else [])
            && (a.PutAppend? ==> Putting(s, a.p, a.t) && !s.procs[a.p].putters[a.t].Appended?)
  {
    hide ProcOk, Sum, Held, Outgoing, From, DoProc;
    assert Ordered(s, p);
  }

  function PutSoFar(s: State, p: Pid): seq<Item> {
    if p in s.put then s.put[p] else []
  }

  /** The history fields tell what has happened. */
  lemma {:induction false} LogsAreHistory(ss: seq<State>, acts: seq<Action>, n: nat, p: Pid)
    requires Run(ss, acts) && Init(ss[0]) && n < |ss|
    ensures PutSoFar(ss[n], p) == PutLog(acts, p, n)
    ensures From(ss[n].received, p) == GotLog(ss, acts, p, n)
  {
    hide Inv, Do, Enabled, From;
    if n == 0 {
      FromNothing(p);
    } else {
      var s, a := ss[n - 1], acts[n - 1];
      LogsAreHistory(ss, acts, n - 1, p);
      RunInv(ss, acts, n - 1);
      StepLogs(s, a, p);
      if a.Get? {
        FromSnoc(s.received, ss[n].getters[a.g], p);
      } else if a.PutAppend? && a.p == p {
        WantedIsCarried(ss, acts, n - 1, p, a.t);
      }
      assert s.received + [] == s.received && PutSoFar(s, p) + [] == PutSoFar(s, p);
    }
  }

  lemma FromNothing(p: Pid)
    ensures From([], p) == []
  {
  }

  /** In every run, what callers of get have got of the items of a process, then what is in the
      pipe of them, then what the process has yet to send, is exactly what has been put there,
      each item as its put was called with it, in order: nothing is lost, duplicated or
      overtaken. */
  lemma PutOrder(ss: seq<State>, acts: seq<Action>, i: nat, p: Pid)
    requires Run(ss, acts) && Init(ss[0]) && i < |ss|
    ensures p in ss[i].procs ==>
              GotLog(ss, acts, p, i) + From(ss[i].pipe, p) + Outgoing(ss[i].procs[p]) == PutLog(acts, p, i)
    ensures GotLog(ss, acts, p, i) <= PutLog(acts, p, i)
  {
    RunInv(ss, acts, i);
    hide Inv, Init, Enabled, Do, Outgoing;
    assert Ordered(ss[i], p) by {
      OrderedAt(ss[i], p);
    }
    LogsAreHistory(ss, acts, i, p);
    FromConcat(ss[i].received, ss[i].pipe, p);
  }

  lemma OrderedAt(s: State, p: Pid)
    requires Inv(s)
    ensures Ordered(s, p)
  {
  }

  lemma {:induction false} FromConcat(a: seq<Sent>, b: seq<Sent>, p: Pid)
    ensures From(a + b, p) == From(a, p) + From(b, p)
    decreases |b|
  {
    if b == [] {
      assert a + b == a;
    } else {
      var n := |b| - 1;
      FromConcat(a, b[..n], p);
      assert a + b == (a + b[..n]) + [b[n]];
      FromSnoc(a + b[..n], b[n], p);
    }
  }

  /** In every run, a feeder that waits without having been notified has an empty buffer,
      unless a putter holding the lock has just appended and is about to notify it; and
      whenever the lock is free and the feeder cannot move, be it waiting, stopped or never
      started, everything put in its process has been sent, and if the queue is closed the feeder
      has stopped. */
  lemma NoLostWakeup(ss: seq<State>, acts: seq<Action>, i: nat, p: Pid)
    requires Run(ss, acts) && Init(ss[0]) && i < |ss| && p in ss[i].procs
    ensures ss[i].procs[p].feeder == Waiting(false) ==> ss[i].procs[p].buffer == [] || AboutToNotify(ss[i].procs[p])
    ensures ss[i].procs[p].lock.Nobody? && !CanFeed(ss[i].procs[p]) ==>
              && GotLog(ss, acts, p, i) + From(ss[i].pipe, p) == PutLog(acts, p, i)
              && (ss[i].procs[p].closed ==> !ss[i].procs[p].feeder.NotStarted? ==> ss[i].procs[p].feeder.Stopped?)
  {
    RunInv(ss, acts, i);
    PutOrder(ss, acts, i, p);
    assert ProcOk(ss[i].procs[p]);
  }
}
