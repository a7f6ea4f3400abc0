/**
 * The handlers of billiard/pool.py that change the tables of jobs and of credit: those of
 * ResultHandler for the workers' messages, that of TimeoutHandler, and the part of
 * _join_exited_workers that deals with jobs.  Each is proved to do to its tables what modules
 * ResultCredit and ApplyJobs say of one step.
 */
module ResultHandling {
  import opened Optional
  import ResultCredit
  import ApplyJobs
  import opened Tally

  type Pid = nat
  type JobId = nat

  class ResultHandler {
    var workerTasks: map<Pid, ResultCredit.Task>
    var taskWorkers: map<ResultCredit.Task, Pid>
    var onReadyCounters: map<Pid, nat>
    var jobs: map<JobId, ApplyJobs.Job>
    var cache: set<JobId>

    function Credit(): ResultCredit.Credit
      reads this
    {
      ResultCredit.Credit(workerTasks, taskWorkers, onReadyCounters)
    }

    function Table(): ApplyJobs.Table
      reads this
    {
      ApplyJobs.Table(jobs, cache)
    }

    ghost predicate Valid()
      reads this
    {
      forall j :: j in cache ==> j in jobs
    }

    constructor ()
      ensures Valid()
      ensures Credit() == ResultCredit.Credit(map[], map[], map[])
      ensures Table() == ApplyJobs.Table(map[], {})
    {
      workerTasks, taskWorkers, onReadyCounters, jobs, cache := map[], map[], map[], map[], {};
    }

    /** A new ApplyResult enters the cache. */
    method Submit(j: JobId)
      requires Valid()
      modifies this`jobs, this`cache
      ensures Valid() && Table() == ApplyJobs.Submitted(old(Table()), j)
    {
      jobs := jobs[j := ApplyJobs.Job(false, None, None, false, 0)];
      cache := cache + {j};
    }

    /** A new worker gets a counter. */
    method OnWorkerUp(pid: Pid)
      modifies this`onReadyCounters
      ensures Credit() == ResultCredit.Hired(old(Credit()), pid)
    {
      onReadyCounters := onReadyCounters[pid := 0];
    }

    /** Drop what is noted for the worker, from both dictionaries. */
    method Forget(pid: Pid)
      modifies this`workerTasks, this`taskWorkers
      ensures Credit() == ResultCredit.Forget(old(Credit()), pid)
    {
      if pid in workerTasks {
        var task := workerTasks[pid];
        workerTasks := workerTasks - {pid};
        taskWorkers := taskWorkers - {task};
      }
    }

    /** ApplyResult._set */
    method SetResult(j: JobId, o: ApplyJobs.Outcome)
      requires Valid() && j in jobs
      modifies this`jobs, this`cache
      ensures Valid() && Table() == ApplyJobs.Resolve(old(Table()), j, o)
    {
      var job := jobs[j];
      jobs := jobs[j := ApplyJobs.Resolved(job, o)];
      if job.accepted {
        cache := cache - {j};
      }
    }

    method OnAck(task: ResultCredit.Task, pid: Pid)
      requires Valid()
      modifies this
      ensures Valid()
      ensures Credit() == ResultCredit.Acked(old(Credit()), task, pid)
      ensures Table() == ApplyJobs.OnAck(old(Table()), task.job, pid)
    {
      Forget(pid);
      workerTasks := workerTasks[pid := task];
      taskWorkers := taskWorkers[task := pid];
      var j := task.job;
      if j in cache {
        var job := jobs[j];
        jobs := jobs[j := job.(accepted := true, workerPid := Some(pid))];
        if job.outcome.Some? {
          cache := cache - {j};
        }
      }
    }

    method OnReady(task: ResultCredit.Task, o: ApplyJobs.Outcome)
      requires Valid()
      modifies this
      ensures Valid()
      ensures Credit() == ResultCredit.Readied(old(Credit()), task)
      ensures Table() == ApplyJobs.OnReady(old(Table()), task.job, o)
    {
      if task in taskWorkers {
        var pid := taskWorkers[task];
        taskWorkers := taskWorkers - {task};
        workerTasks := workerTasks - {pid};
        if pid in onReadyCounters {
          onReadyCounters := onReadyCounters[pid := onReadyCounters[pid] + 1];
        }
      }
      if task.job !in cache {
        return;
      }
      SetResult(task.job, o);
    }

    /** What reaping one worker does to the tables of credit. */
    method OnWorkerExit(pid: Pid)
      requires pid in onReadyCounters
      modifies this`workerTasks, this`taskWorkers, this`onReadyCounters
      ensures Credit() == ResultCredit.Exited(old(Credit()), pid)
    {
      onReadyCounters := onReadyCounters - {pid};
      Forget(pid);
    }

    method OnHardTimeout(j: JobId)
      requires Valid() && j in jobs
      modifies this`jobs, this`cache
      ensures Valid() && Table() == ApplyJobs.OnHardTimeout(old(Table()), j)
    {
      if jobs[j].outcome.Some? {
        return;
      }
      SetResult(j, ApplyJobs.TimeLimitExceeded);
    }

    /** The body of the first loop of _join_exited_workers, when the job's grace is over. */
    method OnLostTimeout(j: JobId)
      requires Valid()
      modifies this`jobs, this`cache
      ensures Valid() && Table() == ApplyJobs.OnLostTimeout(old(Table()), j)
    {
      if j in cache && jobs[j].outcome.None? && jobs[j].workerLost {
        SetResult(j, ApplyJobs.WorkerLost);
      }
    }

    /** The second loop of _join_exited_workers: every job in the cache that a worker outside
        `pool` has acknowledged and that is not resolved is marked as lost, or resolved if the
        worker was terminated for it. */
    method ReapJobs(pool: set<Pid>, terminated: set<Pid>)
      requires Valid()
      modifies this`jobs, this`cache
      ensures Valid() && Table() == ApplyJobs.ReapAll(old(Table()), pool, terminated)
    {
      hide ApplyJobs.ReapSet;
      hide ApplyJobs.ReapOne;
      var todo := cache;
      ghost var done: set<JobId> := {};
      ApplyJobs.ReapSetEmpty(Table(), pool, terminated);
      while todo != {}
        invariant Valid() && todo + done == old(cache) && todo !! done
        invariant forall j :: j in old(jobs) ==> j in jobs
        invariant Table() == ApplyJobs.ReapSet(old(Table()), done, pool, terminated)
        decreases |todo|
      {
        var j := AnyOf(todo);
        todo := todo - {j};
        ApplyJobs.ReapSetStep(old(Table()), done, j, pool, terminated);
        ReapJob(j, pool, terminated);
        done := done + {j};
      }
      assert done == old(cache);
    }

    method ReapJob(j: JobId, pool: set<Pid>, terminated: set<Pid>)
      requires Valid() && j in jobs
      modifies this`jobs, this`cache
      ensures Valid() && Table() == ApplyJobs.ReapOne(old(Table()), j, pool, terminated)
      ensures forall i :: i in old(jobs) ==> i in jobs
    {
      var job := jobs[j];
      if job.workerPid.Some? && job.workerPid.value !in pool && job.outcome.None? {
        if job.workerPid.value in terminated {
          SetResult(j, ApplyJobs.Terminated);
        } else {
          jobs := jobs[j := job.(workerLost := true)];
        }
      } else {
        assert jobs[j := job] == jobs;
      }
    }
  }

  method AnyOf(s: set<JobId>) returns (j: JobId)
    requires s != {}
    ensures j in s
  {
    var k := PickFrom(s);
    assert k in s;
    j :| j in s;
  }
}
