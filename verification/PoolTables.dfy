/**
 * The tables of workers that billiard/pool.py keeps: the list `_pool`, the dictionaries
 * `_poolctrl` and `_on_ready_counters` keyed by pid, and the target size `_processes`.
 * Process creation is one step and yields a pid that no worker on record has.
 */
module PoolTables {
  import opened Tally
  import opened RestartLimiter

  type Pid = nat

  const EX_OK := 0
  const EX_RECYCLE := 0x9B

  datatype Worker = Worker(pid: Pid, index: int)

  function Pids(ws: seq<Worker>): set<Pid> { set i | 0 <= i < |ws| :: ws[i].pid }
  function Indices(ws: seq<Worker>): set<int> { set i | 0 <= i < |ws| :: ws[i].index }

  ghost predicate DistinctWorkers(ws: seq<Worker>) {
    forall i, j :: 0 <= i < j < |ws| ==> ws[i].pid != ws[j].pid && ws[i].index != ws[j].index
  }

  /** The workers that have not exited, in order. */
  function Surviving(ws: seq<Worker>, exited: map<Pid, int>): seq<Worker> {
    if ws == [] then []
    else (if ws[0].pid in exited then [] else [ws[0]]) + Surviving(ws[1..], exited)
  }

  /** The exit codes of the others, last worker first. */
  function Codes(ws: seq<Worker>, exited: map<Pid, int>): seq<int> {
    if ws == [] then []
    else Codes(ws[1..], exited) + (if ws[0].pid in exited then [exited[ws[0].pid]] else [])
  }

  /** Whether `_repopulate_pool` consults the restart limiter before creating worker i. */
  predicate CountsAsRestart(exitcodes: seq<int>, i: nat) {
    exitcodes != [] && (i >= |exitcodes| || (exitcodes[i] != EX_OK && exitcodes[i] != EX_RECYCLE))
  }

  /** The limiter before worker k is created: it has been consulted for those before it. */
  function LimiterAt(l: Limiter, exitcodes: seq<int>, nows: seq<real>, k: nat): Limiter
    requires k <= |nows|
  {
    if k == 0 then l
    else
      var before := LimiterAt(l, exitcodes, nows, k - 1);
      if CountsAsRestart(exitcodes, k - 1) then Next(before, nows[k - 1]) else before
  }

  /** Creating worker k exceeds the restart frequency. */
  predicate Refused(l: Limiter, exitcodes: seq<int>, nows: seq<real>, k: nat)
    requires k < |nows|
  {
    CountsAsRestart(exitcodes, k) && Raises(LimiterAt(l, exitcodes, nows, k), nows[k])
  }

  /** How many workers are to be created: those missing, as long as the pool is in state RUN. */
  function Due(missing: int, runs: nat): nat {
    if missing <= 0 then 0 else if runs < missing then runs else missing
  }

  /** Clean and recycled exits are replaced freely: as long as there is an exit code for each new
      worker, the limiter is not consulted and nothing is refused. */
  lemma {:induction false} CleanExitsPass(l: Limiter, exitcodes: seq<int>, nows: seq<real>, k: nat)
    requires k <= |nows| && k <= |exitcodes|
    requires forall c :: c in exitcodes ==> c == 0 || c == 155
    ensures LimiterAt(l, exitcodes, nows, k) == l
    ensures k < |nows| && k < |exitcodes| ==> !Refused(l, exitcodes, nows, k)
  {
    assert k < |exitcodes| ==> exitcodes[k] in exitcodes;
    if k > 0 {
      assert exitcodes[k - 1] in exitcodes;
      CleanExitsPass(l, exitcodes, nows, k - 1);
    }
  }

  /** After crashes the limiter is consulted for every new worker, also for those beyond the number
      of crashes, and refuses as its own rule says. */
  lemma {:induction false} CrashesConsult(l: Limiter, exitcodes: seq<int>, nows: seq<real>, k: nat)
    requires k <= |nows| && exitcodes != []
    requires forall c :: c in exitcodes ==> c != 0 && c != 155
    ensures LimiterAt(l, exitcodes, nows, k) == After(l, nows, k)
    ensures k < |nows| ==> (Refused(l, exitcodes, nows, k) <==> Raises(After(l, nows, k), nows[k]))
  {
    assert k < |exitcodes| ==> exitcodes[k] in exitcodes;
    if k > 0 {
      assert k - 1 < |exitcodes| ==> exitcodes[k - 1] in exitcodes;
      CrashesConsult(l, exitcodes, nows, k - 1);
    }
  }

  /** In a mixture each new worker is treated by the exit code at its own position, and the
      limiter is consulted for it exactly if that exit was a crash or there is none left. */
  lemma MixtureConsults(l: Limiter, exitcodes: seq<int>, nows: seq<real>, k: nat)
    requires k < |nows| && exitcodes != []
    ensures LimiterAt(l, exitcodes, nows, k + 1) ==
            if k < |exitcodes| && exitcodes[k] in {0, 155} then LimiterAt(l, exitcodes, nows, k)
            else Next(LimiterAt(l, exitcodes, nows, k), nows[k])
    ensures k < |exitcodes| && exitcodes[k] in {0, 155} ==> !Refused(l, exitcodes, nows, k)
  {
  }

  /** Without exit codes the limiter is not consulted and nothing is refused. */
  lemma {:induction false} NoExitNoRestart(l: Limiter, nows: seq<real>, k: nat)
    requires k <= |nows|
    ensures LimiterAt(l, [], nows, k) == l
    ensures k < |nows| ==> !Refused(l, [], nows, k)
  {
    if k > 0 {
      NoExitNoRestart(l, nows, k - 1);
    }
  }

  /** Fewer workers than `n` leave one of the indices 0..n-1 unused. */
  lemma Pigeonhole(ws: seq<Worker>, n: int)
    requires |ws| < n
    ensures exists i :: 0 <= i < n && i !in Indices(ws)
  {
    IndicesSize(ws);
    if Below(n) <= Indices(ws) {
      SubsetSize<int>(Below(n), Indices(ws));
    } else {
      var spare := PickFrom<int>(Below(n) - Indices(ws));
    }
  }

  lemma {:induction false} IndicesSize(ws: seq<Worker>)
    ensures |Indices(ws)| <= |ws|
  {
    if ws != [] {
      var front := ws[..|ws| - 1];
      IndicesSize(front);
      assert Indices(ws) == Indices(front) + {ws[|ws| - 1].index} by {
        assert ws == front + [ws[|ws| - 1]];
        IndicesSnoc(front, ws[|ws| - 1]);
      }
    }
  }

  lemma IndicesSnoc(ws: seq<Worker>, w: Worker)
    ensures Indices(ws + [w]) == Indices(ws) + {w.index}
    ensures Pids(ws + [w]) == Pids(ws) + {w.pid}
  {
    var all := ws + [w];
    assert forall i :: 0 <= i < |ws| ==> all[i] == ws[i];
    assert all[|ws|] == w;
    forall x | x in Indices(ws)
      ensures x in Indices(all)
    {
      var i :| 0 <= i < |ws| && ws[i].index == x;
      assert all[i].index == x;
    }
    forall x | x in Pids(ws)
      ensures x in Pids(all)
    {
      var i :| 0 <= i < |ws| && ws[i].pid == x;
      assert all[i].pid == x;
    }
  }

  /** The surviving workers are exactly those that have not exited. */
  lemma {:induction false} SurvivingMembers(ws: seq<Worker>, exited: map<Pid, int>)
    ensures forall w :: w in Surviving(ws, exited) <==> w in ws && w.pid !in exited
  {
    if ws != [] {
      SurvivingMembers(ws[1..], exited);
      assert ws == [ws[0]] + ws[1..];
    }
  }

  /** Survivors keep their order: those of two stretches of the pool follow each other. */
  lemma {:induction false} SurvivingConcat(a: seq<Worker>, b: seq<Worker>, exited: map<Pid, int>)
    ensures Surviving(a + b, exited) == Surviving(a, exited) + Surviving(b, exited)
  {
    if a == [] {
      assert a + b == b;
    } else {
      assert (a + b)[1..] == a[1..] + b;
      SurvivingConcat(a[1..], b, exited);
    }
  }

  /** Exit codes come in the opposite order. */
  lemma {:induction false} CodesConcat(a: seq<Worker>, b: seq<Worker>, exited: map<Pid, int>)
    ensures Codes(a + b, exited) == Codes(b, exited) + Codes(a, exited)
  {
    if a == [] {
      assert a + b == b;
    } else {
      assert (a + b)[1..] == a[1..] + b;
      CodesConcat(a[1..], b, exited);
    }
  }

  /** Every exited worker has its exit code in the list, after those of the exited workers behind
      it in the pool; every other worker keeps its place after the survivors before it. */
  lemma WorkerAccounted(ws: seq<Worker>, exited: map<Pid, int>, i: nat)
    requires i < |ws|
    ensures ws[i].pid in exited ==>
              var n := |Codes(ws[i + 1..], exited)|;
              n < |Codes(ws, exited)| && Codes(ws, exited)[n] == exited[ws[i].pid]
    ensures ws[i].pid !in exited ==>
              var n := |Surviving(ws[..i], exited)|;
              n < |Surviving(ws, exited)| && Surviving(ws, exited)[n] == ws[i]
  {
    assert ws == ws[..i] + ws[i..] && ws[i..] == [ws[i]] + ws[i + 1..];
    CodesConcat(ws[..i], ws[i..], exited);
    SurvivingConcat(ws[..i], ws[i..], exited);
  }

  /** Each worker is either a survivor or accounted for by an exit code. */
  lemma {:induction false} NobodyUnaccounted(ws: seq<Worker>, exited: map<Pid, int>)
    ensures |Surviving(ws, exited)| + |Codes(ws, exited)| == |ws|
  {
    if ws != [] {
      NobodyUnaccounted(ws[1..], exited);
    }
  }

  /** The idle workers are exactly the workers that no job is assigned to, each once. */
  lemma {:induction false} IdleMembers(ws: seq<Worker>, active: set<Pid>)
    requires DistinctWorkers(ws)
    ensures forall w :: w in Idle(ws, active) <==> w in ws && w.pid !in active
    ensures Distinct(Idle(ws, active))
  {
    if ws != [] {
      var rest := ws[1..];
      assert ws == [ws[0]] + rest;
      IdleMembers(rest, active);
      assert ws[0] !in rest;
      assert ws[0].pid !in active ==> Idle(ws, active) == [ws[0]] + Idle(rest, active);
    }
  }

  class Pool {
    var pool: seq<Worker>
    var poolctrl: set<Pid>
    var onReadyCounters: map<Pid, nat>
    var processes: int
    var limiter: Limiter

    /** Worker indices and pids are pairwise distinct, and both dictionaries have exactly the
        pids of the pool. */
    ghost predicate Valid()
      reads this
    {
      && DistinctWorkers(pool)
      && poolctrl == Pids(pool)
      && onReadyCounters.Keys == Pids(pool)
    }

    /** The workers created by `__init__`, whose pids are `newPids`. */
    constructor (processes: nat, limiter: Limiter, newPids: seq<Pid>)
      requires |newPids| == processes
      requires forall j, k :: 0 <= j < k < |newPids| ==> newPids[j] != newPids[k]
      ensures Valid() && |pool| == processes && this.processes == processes
      ensures forall k :: 0 <= k < processes ==> pool[k] == Worker(newPids[k], k)
    {
      pool, poolctrl, onReadyCounters := [], {}, map[];
      this.processes, this.limiter := processes, limiter;
      new;
      for i := 0 to processes
        invariant Valid() && |pool| == i && this.processes == processes
        invariant forall k :: 0 <= k < i ==> pool[k] == Worker(newPids[k], k)
      {
        CreateWorker(i, newPids[i]);
      }
    }

    /** `_avail_index`: the smallest index that no worker has. */
    method AvailIndex() returns (i: int)
      requires |pool| < processes
      ensures 0 <= i < processes && i !in Indices(pool)
      ensures forall j :: 0 <= j < i ==> j in Indices(pool)
    {
      var indices := Indices(pool);
      Pigeonhole(pool, processes);
      i := 0;
      while i in indices
        invariant 0 <= i
        invariant forall j :: 0 <= j < i ==> j in Indices(pool)
        invariant i < processes
        decreases processes - i
      {
        i := i + 1;
      }
    }

    /** `_create_worker_process`, with the pid of the new process. */
    method CreateWorker(i: int, pid: Pid)
      requires Valid() && i !in Indices(pool) && pid !in Pids(pool)
      modifies this`pool, this`poolctrl, this`onReadyCounters
      ensures Valid()
      ensures pool == old(pool) + [Worker(pid, i)]
      ensures onReadyCounters == old(onReadyCounters)[pid := 0]
    {
      IndicesSnoc(pool, Worker(pid, i));
      forall k | 0 <= k < |pool|
        ensures pool[k].pid != pid && pool[k].index != i
      {
        assert pool[k].pid in Pids(pool) && pool[k].index in Indices(pool);
      }
      pool := pool + [Worker(pid, i)];
      poolctrl := poolctrl + {pid};
      onReadyCounters := onReadyCounters[pid := 0];
    }

    /** The table part of `_join_exited_workers`: drop every exited worker from all tables.
        Returns the exit codes, in the order in which the workers were found. */
    method JoinExited(exited: map<Pid, int>) returns (codes: seq<int>)
      requires Valid()
      modifies this`pool, this`poolctrl, this`onReadyCounters
      ensures Valid()
      ensures pool == Surviving(old(pool), exited)
      ensures codes == Codes(old(pool), exited)
      ensures Within(onReadyCounters, old(onReadyCounters))
    {
      hide DistinctWorkers, Pids;
      codes := [];
      var i := |pool|;
      ghost var start := pool;
      assert start == start[..i] + Surviving(start[i..], exited);
      while i > 0
        invariant 0 <= i <= |start|
        invariant Valid()
        invariant pool == start[..i] + Surviving(start[i..], exited)
        invariant codes == Codes(start[i..], exited)
        invariant Within(onReadyCounters, old(onReadyCounters))
      {
        i := i - 1;
        SurvivingFrom(start, i, exited);
        var worker := pool[i];
        if worker.pid in exited {
          codes := codes + [exited[worker.pid]];
          Drop(i);
        }
      }
      assert start[0..] == start;
    }

    /** Remove one worker from all tables. */
    method Drop(i: nat)
      requires Valid() && i < |pool|
      modifies this`pool, this`poolctrl, this`onReadyCounters
      ensures Valid()
      ensures pool == old(pool)[..i] + old(pool)[i + 1..]
      ensures onReadyCounters == old(onReadyCounters) - {old(pool)[i].pid}
    {
      var worker := pool[i];
      DropWorker(pool, i);
      pool := pool[..i] + pool[i + 1..];
      poolctrl := poolctrl - {worker.pid};
      onReadyCounters := onReadyCounters - {worker.pid};
    }

    /** `_repopulate_pool`: create workers until there are `_processes` of them, unless the pool
        leaves the state RUN, which it does after `runs` more workers, or the limiter raises.
        `newPids` are the pids of the new processes and `nows` the clock readings of the
        limiter. */
    method Repopulate(exitcodes: seq<int>, runs: nat, newPids: seq<Pid>, nows: seq<real>) returns (raised: bool)
      requires Valid()
      requires |pool| + |newPids| >= processes && |pool| + |nows| >= processes
      requires forall k :: 0 <= k < |newPids| ==> newPids[k] !in Pids(pool)
      requires forall j, k :: 0 <= j < k < |newPids| ==> newPids[j] != newPids[k]
      modifies this`pool, this`poolctrl, this`onReadyCounters, this`limiter
      ensures Valid()
      ensures old(pool) <= pool
      ensures |pool| <= |old(pool)| || |pool| <= processes
      ensures !raised ==>
                |pool| == if |old(pool)| >= processes then |old(pool)|
                          else if |old(pool)| + runs < processes then |old(pool)| + runs else processes
      ensures !raised && runs >= processes - |old(pool)| ==> |pool| >= processes
      ensures var due := Due(processes - |old(pool)|, runs);
              var made := |pool| - |old(pool)|;
              && made <= due
              && (raised <==> made < due)
              && (forall k :: 0 <= k < made ==> !Refused(old(limiter), exitcodes, nows, k))
              && (raised ==> Refused(old(limiter), exitcodes, nows, made))
              && limiter == LimiterAt(old(limiter), exitcodes, nows, if raised then made + 1 else made)
      ensures forall k :: |old(pool)| <= k < |pool| ==> pool[k].pid == newPids[k - |old(pool)|]
    {
      hide DistinctWorkers;
      var missing := processes - |pool|;
      var i := 0;
      while i < missing
        invariant 0 <= i && i <= Due(missing, runs)
        invariant Valid() && old(pool) <= pool && |pool| == |old(pool)| + i
        invariant forall k :: 0 <= k < i ==> pool[|old(pool)| + k].pid == newPids[k]
        invariant forall k :: i <= k < |newPids| ==> newPids[k] !in Pids(pool)
        invariant forall k :: 0 <= k < i ==> !Refused(old(limiter), exitcodes, nows, k)
        invariant limiter == LimiterAt(old(limiter), exitcodes, nows, i)
      {
        if i >= runs {
          return false;
        }
        if CountsAsRestart(exitcodes, i) {
          raised := Raises(limiter, nows[i]);
          limiter := Next(limiter, nows[i]);
          if raised {
            return true;
          }
        }
        var index := AvailIndex();
        IndicesSnoc(pool, Worker(newPids[i], index));
        CreateWorker(index, newPids[i]);
        i := i + 1;
      }
      return false;
    }

    /** `grow`. */
    method Grow(n: nat)
      requires Valid()
      modifies this`processes
      ensures Valid() && processes == old(processes) + n
    {
      for i := 0 to n
        invariant processes == old(processes) + i
      {
        processes := processes + 1;
      }
    }

    /** `shrink`: lower the target by one per inactive worker, at most n of them but at least
        one.  If there are too few the call raises, having lowered the target all the same.
        The workers stay in the tables until they are reaped. */
    method Shrink(n: int, active: set<Pid>) returns (raised: bool)
      requires Valid()
      modifies this`processes
      ensures Valid()
      ensures var idle := |Idle(pool, active)|;
              var want := if n >= 1 then n else 1;
              && raised == (idle < want)
              && processes == old(processes) - (if raised then idle else want)
    {
      var idle := Idle(pool, active);
      var i := 0;
      while i < |idle|
        invariant 0 <= i <= |idle|
        invariant processes == old(processes) - i
        invariant i < (if n >= 1 then n else 1)
      {
        processes := processes - 1;
        if i >= n - 1 {
          return false;
        }
        i := i + 1;
      }
      return true;
    }
  }

  /** `_iterinactive`: the workers that no job in the cache is assigned to. */
  function Idle(ws: seq<Worker>, active: set<Pid>): seq<Worker> {
    if ws == [] then []
    else (if ws[0].pid in active then [] else [ws[0]]) + Idle(ws[1..], active)
  }

  /** The counters of the workers that are left have not changed. */
  ghost predicate Within(a: map<Pid, nat>, b: map<Pid, nat>) {
    forall pid :: pid in a ==> pid in b && a[pid] == b[pid]
  }

  lemma SurvivingFrom(ws: seq<Worker>, i: nat, exited: map<Pid, int>)
    requires i < |ws|
    ensures Surviving(ws[i..], exited) ==
            (if ws[i].pid in exited then [] else [ws[i]]) + Surviving(ws[i + 1..], exited)
    ensures Codes(ws[i..], exited) ==
            Codes(ws[i + 1..], exited) + (if ws[i].pid in exited then [exited[ws[i].pid]] else [])
  {
    assert ws[i..][1..] == ws[i + 1..];
  }

  lemma DropWorker(ws: seq<Worker>, i: nat)
    requires DistinctWorkers(ws) && i < |ws|
    ensures DistinctWorkers(ws[..i] + ws[i + 1..])
    ensures Pids(ws[..i] + ws[i + 1..]) == Pids(ws) - {ws[i].pid}
  {
    var r := ws[..i] + ws[i + 1..];
    assert forall k :: 0 <= k < |r| ==> r[k] == if k < i then ws[k] else ws[k + 1];
    forall p | p in Pids(ws) - {ws[i].pid}
      ensures p in Pids(r)
    {
      var k :| 0 <= k < |ws| && ws[k].pid == p;
      assert r[if k < i then k else k - 1].pid == p;
    }
  }
}
