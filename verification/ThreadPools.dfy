/**
 `ThreadPool`: workers take jobs from a queue and `sync` waits for them. Each method is one critical
 section, so what `Valid` says holds in every interleaving.
 */
module ThreadPools {
  import opened Bytes

  /** A worker between jobs, with a job, or done with one it has not yet taken off the list. */
  datatype Worker = Ready | Running(job: nat) | Finished(job: nat)

  datatype AddResult = Waits | Accepted(job: nat) | Refused | RanAtOnce

  /** What became of a job; `Done` says whether its worker has locked the queue since. */
  datatype Status = Queued | Active | Done(offHand: bool)

  predicate Distinct(s: seq<nat>) {
    forall i, j :: 0 <= i < j < |s| ==> s[i] != s[j]
  }

  lemma FirstTaken(s: seq<nat>)
    requires Distinct(s) && s != []
    ensures Distinct(s[1..]) && forall j :: j in s[1..] <==> j in s && j != s[0]
  {
  }

  lemma LastAdded(s: seq<nat>, j: nat)
    requires Distinct(s) && j !in s
    ensures Distinct(s + [j])
  {
  }

  /** Every accepted job is queued, running or done, and was started at most once. */
  predicate JobsKept(
      queue: seq<nat>, started: seq<nat>, running: set<nat>, pending: set<nat>, status: map<nat, Status>, n: nat)
  {
    && (forall j :: j in status ==> j < n) && (forall j :: 0 <= j < n ==> j in status)
    && Distinct(queue) && (forall j :: j in queue ==> j in status && status[j] == Queued)
    && (forall j :: j in status && status[j] == Queued ==> j in queue)
    && Distinct(started) && (forall j :: j in started ==> j in status && status[j] != Queued)
    && (forall j :: j in status && status[j] != Queued ==> j in started)
    && (forall j :: j in running ==> j in status && status[j] == Active)
    && (forall j :: j in status && status[j] == Active ==> j in running)
    && (forall j :: j in pending ==> j in status && status[j] != Done(true))
    && (forall j :: j in status && status[j] != Done(true) ==> j in pending)
  }

  /** A job is in the hands of the worker that has it. */
  predicate WorkersKept(threads: map<nat, Worker>, status: map<nat, Status>) {
    && (forall w :: w in threads && threads[w].Running? ==>
          threads[w].job in status && status[threads[w].job] == Active)
    && (forall w :: w in threads && threads[w].Finished? ==>
          threads[w].job in status && status[threads[w].job] == Done(false))
    && (forall v, w :: v in threads && w in threads && v != w && !threads[v].Ready? && !threads[w].Ready? ==>
          threads[v].job != threads[w].job)
  }

  /** Some worker has the job, or is done with it and has not locked the queue since. */
  predicate HasWorker(threads: map<nat, Worker>, job: nat) {
    exists w :: w in threads && !threads[w].Ready? && threads[w].job == job
  }

  /** A job that was started is in the hands of a worker until that worker locks the queue again. */
  predicate StartedHeld(threads: map<nat, Worker>, status: map<nat, Status>) {
    forall j :: j in status && status[j] in {Active, Done(false)} ==> HasWorker(threads, j)
  }

  /** All of this together. */
  predicate Kept(
      queue: seq<nat>, started: seq<nat>, running: set<nat>, pending: set<nat>, status: map<nat, Status>, n: nat,
      threads: map<nat, Worker>)
  {
    JobsKept(queue, started, running, pending, status, n) && WorkersKept(threads, status) && StartedHeld(threads, status)
  }

  /** Pending are exactly the queued jobs and those in the hands of a worker. */
  lemma {:induction false} PendingIsHeld(
      queue: seq<nat>, started: seq<nat>, running: set<nat>, pending: set<nat>, status: map<nat, Status>, n: nat,
      threads: map<nat, Worker>)
    requires Kept(queue, started, running, pending, status, n, threads)
    ensures forall j :: j in pending <==> j in queue || HasWorker(threads, j)
    ensures forall j :: !(j in queue && HasWorker(threads, j))
  {
    hide Distinct;
  }

  /** A worker takes a job, or is done with the one it has. */
  lemma {:induction false} HeldByWorker(
      threads: map<nat, Worker>, status: map<nat, Status>, w: nat, worker: Worker, to: Status)
    requires StartedHeld(threads, status) && w in threads && !worker.Ready?
    requires threads[w].Ready? || threads[w].job == worker.job
    ensures StartedHeld(threads[w := worker], status[worker.job := to])
  {
    var threads', status' := threads[w := worker], status[worker.job := to];
    forall j | j in status' && status'[j] in {Active, Done(false)}
      ensures HasWorker(threads', j)
    {
      if j == worker.job {
        assert threads'[w].job == j;
      } else {
        var v :| v in threads && !threads[v].Ready? && threads[v].job == j;
        assert threads'[v] == threads[v];
      }
    }
  }

  /** A worker puts down the job it is done with. */
  lemma {:induction false} HeldNoMore(threads: map<nat, Worker>, status: map<nat, Status>, w: nat)
    requires StartedHeld(threads, status) && WorkersKept(threads, status)
    requires w in threads && threads[w].Finished?
    ensures StartedHeld(threads[w := Ready], status[threads[w].job := Done(true)])
  {
    var threads', status' := threads[w := Ready], status[threads[w].job := Done(true)];
    forall j | j in status' && status'[j] in {Active, Done(false)}
      ensures HasWorker(threads', j)
    {
      var v :| v in threads && !threads[v].Ready? && threads[v].job == j;
      assert threads'[v] == threads[v];
    }
  }

  /** Workers without a job may come and go, and jobs may be queued. */
  lemma {:induction false} HeldByOthers(
      threads: map<nat, Worker>, status: map<nat, Status>, threads': map<nat, Worker>, status': map<nat, Status>)
    requires StartedHeld(threads, status)
    requires forall w :: w in threads && !threads[w].Ready? ==> w in threads' && threads'[w] == threads[w]
    requires forall j :: j in status' && status'[j] in {Active, Done(false)} ==> j in status && status[j] == status'[j]
    ensures StartedHeld(threads', status')
  {
    forall j | j in status' && status'[j] in {Active, Done(false)}
      ensures HasWorker(threads', j)
    {
      var v :| v in threads && !threads[v].Ready? && threads[v].job == j;
      assert threads'[v] == threads[v];
    }
  }

  /** The first n threads of a pool, waiting for jobs. */
  function Workers(n: int): (threads: map<nat, Worker>)
    ensures forall w: nat :: w in threads <==> w < n
    ensures forall w :: w in threads ==> threads[w].Ready?
    decreases if n > 0 then n else 0
  {
    if n <= 0 then map[] else Workers(n - 1)[n - 1 := Ready]
  }

  lemma NoJobs(threads: map<nat, Worker>)
    requires forall w :: w in threads ==> threads[w].Ready?
    ensures Kept([], [], {}, {}, map[], 0, threads)
  {
  }

  /** A job is accepted. */
  lemma {:induction false} EnqueueKeeps(
      queue: seq<nat>, started: seq<nat>, running: set<nat>, pending: set<nat>, status: map<nat, Status>, n: nat,
      threads: map<nat, Worker>)
    requires Kept(queue, started, running, pending, status, n, threads)
    ensures Kept(queue + [n], started, running, pending + {n}, status[n := Queued], n + 1, threads)
  {
    LastAdded(queue, n);
    hide Distinct;
    assert n !in status;
    HeldByOthers(threads, status, threads, status[n := Queued]);
  }

  /** A worker starts the first job of the queue, which was not started before. */
  lemma {:induction false} StartKeeps(
      queue: seq<nat>, started: seq<nat>, running: set<nat>, pending: set<nat>, status: map<nat, Status>, n: nat,
      threads: map<nat, Worker>, w: nat)
    requires Kept(queue, started, running, pending, status, n, threads)
    requires queue != [] && w in threads && threads[w].Ready?
    ensures var job := queue[0];
            && Kept(queue[1..], started + [job], running + {job}, pending, status[job := Active], n,
                    threads[w := Running(job)])
            && job !in running && job !in started
  {
    var job := queue[0];
    assert job in queue;
    FirstTaken(queue);
    LastAdded(started, job);
    HeldByWorker(threads, status, w, Running(job), Active);
    hide Distinct, StartedHeld;
  }

  /** A worker is done with its job, which stays pending. */
  lemma {:induction false} FinishKeeps(
      queue: seq<nat>, started: seq<nat>, running: set<nat>, pending: set<nat>, status: map<nat, Status>, n: nat,
      threads: map<nat, Worker>, w: nat)
    requires Kept(queue, started, running, pending, status, n, threads)
    requires w in threads && threads[w].Running?
    ensures var job := threads[w].job;
            && Kept(queue, started, running - {job}, pending, status[job := Done(false)], n, threads[w := Finished(job)])
            && job in running
  {
    var job := threads[w].job;
    HeldByWorker(threads, status, w, Finished(job), Done(false));
    hide Distinct, StartedHeld;
  }

  /** A worker locks the queue again: the job it was done with is not pending any more. */
  lemma {:induction false} ForgetKeeps(
      queue: seq<nat>, started: seq<nat>, running: set<nat>, pending: set<nat>, status: map<nat, Status>, n: nat,
      threads: map<nat, Worker>, w: nat)
    requires Kept(queue, started, running, pending, status, n, threads)
    requires w in threads && threads[w].Finished?
    ensures var job := threads[w].job;
            Kept(queue, started, running, pending - {job}, status[job := Done(true)], n, threads[w := Ready])
  {
    HeldNoMore(threads, status, w);
    hide Distinct, StartedHeld;
  }

  /** A worker without a job comes or goes. */
  lemma {:induction false} WorkerKeeps(
      queue: seq<nat>, started: seq<nat>, running: set<nat>, pending: set<nat>, status: map<nat, Status>, n: nat,
      threads: map<nat, Worker>, w: nat)
    requires Kept(queue, started, running, pending, status, n, threads)
    requires w in threads ==> threads[w].Ready?
    ensures Kept(queue, started, running, pending, status, n, threads[w := Ready])
    ensures Kept(queue, started, running, pending, status, n, threads - {w})
  {
    HeldByOthers(threads, status, threads[w := Ready], status);
    HeldByOthers(threads, status, threads - {w}, status);
    hide Distinct, StartedHeld;
  }

  class ThreadPool {
    const numThreads: int
    const maxQueueSize: int
    var queue: seq<nat>
    var pendingJobs: set<nat>
    var threads: map<nat, Worker>
    var numRunning: nat
    var nextJobId: nat
    var doRun: bool

    /** The jobs that were started, in order; those that run now; and the status of every accepted job. */
    ghost var started: seq<nat>
    ghost var running: set<nat>
    ghost var status: map<nat, Status>

    ghost predicate Valid()
      reads this
    {
      && Kept(queue, started, running, pendingJobs, status, nextJobId, threads) && numRunning == |running|
      // threads are numbered, or named after the job they were made for
      && forall w :: w in threads ==> if numThreads > 0 then w < numThreads else w < nextJobId
    }

    ghost predicate HasFinished(j: nat)
      reads this
    {
      j in status && status[j].Done?
    }

    constructor (numThreads: int, maxQueueSize: int)
      ensures Valid() && doRun && nextJobId == 0 && queue == [] && threads == Workers(numThreads)
      ensures this.numThreads == numThreads && this.maxQueueSize == maxQueueSize
    {
      this.numThreads, this.maxQueueSize := numThreads, maxQueueSize;
      queue, pendingJobs, numRunning, nextJobId, doRun := [], {}, 0, 0, true;
      started, running, status := [], {}, map[];
      threads := Workers(0);
      new;
      hide Kept;
      var i := 0;
      while i < numThreads
        invariant 0 <= i && (if numThreads <= 0 then i == 0 else i <= numThreads) && threads == Workers(i)
        modifies this`threads
      {
        threads := threads[i := Ready];
        i := i + 1;
      }
      NoJobs(threads);
    }

    /** `add_task`, one turn of its waiting loop. */
    method AddTask() returns (r: AddResult)
      requires Valid()
      modifies this`queue, this`pendingJobs, this`threads, this`nextJobId, this`status
      ensures Valid()
      ensures r ==
                if numThreads == 0 then RanAtOnce
                else if numThreads > 0 && !doRun then Refused
                else if numThreads > 0 && maxQueueSize > 0 && |old(queue)| >= maxQueueSize then Waits
                else Accepted(old(nextJobId))
      ensures r.Accepted? ==>
                && nextJobId == r.job + 1 && queue == old(queue) + [r.job]
                && pendingJobs == old(pendingJobs) + {r.job}
                && threads == if numThreads > 0 then old(threads) else old(threads)[r.job := Ready]
      ensures !r.Accepted? ==>
                queue == old(queue) && nextJobId == old(nextJobId) && pendingJobs == old(pendingJobs)
                && threads == old(threads)
    {
      hide Kept;
      if numThreads > 0 {
        if doRun && maxQueueSize > 0 && |queue| >= maxQueueSize {
          return Waits;
        }
        if !doRun {
          return Refused;
        }
        Enqueue();
        r := Accepted(nextJobId - 1);
      } else if numThreads < 0 {
        Enqueue();
        var job := nextJobId - 1;
        WorkerKeeps(queue, started, running, pendingJobs, status, nextJobId, threads, job);
        threads := threads[job := Ready];
        r := Accepted(job);
      } else {
        r := RanAtOnce;
      }
    }

    method Enqueue()
      requires Valid()
      modifies this`queue, this`pendingJobs, this`nextJobId, this`status
      ensures Valid() && nextJobId == old(nextJobId) + 1 && queue == old(queue) + [old(nextJobId)]
      ensures pendingJobs == old(pendingJobs) + {old(nextJobId)}
    {
      hide Kept;
      var job := nextJobId;
      EnqueueKeeps(queue, started, running, pendingJobs, status, nextJobId, threads);
      nextJobId := nextJobId + 1;
      queue := queue + [job];
      pendingJobs := pendingJobs + {job};
      status := status[job := Queued];
    }

    /**
     A worker locks the queue: the job it finished is no longer pending, then it takes the next one,
     waits for one, or leaves.
     */
    method TakeNext(w: nat) returns (job: Option<nat>)
      requires Valid() && w in threads && !threads[w].Running?
      modifies this`queue, this`pendingJobs, this`threads, this`numRunning, this`started, this`running, this`status
      ensures Valid()
      ensures pendingJobs == old(pendingJobs) - if old(threads)[w].Finished? then {old(threads)[w].job} else {}
      ensures var once := numThreads <= 0 && old(threads)[w].Finished?;
              if once || !doRun then
                job.None? && queue == old(queue) && started == old(started) && threads == old(threads) - {w}
              else if old(queue) == [] then
                job.None? && queue == [] && started == old(started) && threads == old(threads)[w := Ready]
              else
                && job == Some(old(queue)[0]) && queue == old(queue)[1..]
                && job.value !in old(started) && started == old(started) + [job.value]
                && threads == old(threads)[w := Running(job.value)]
    {
      hide Kept;
      var once := numThreads <= 0 && threads[w].Finished?;
      Forget(w);
      if once || !doRun {
        WorkerKeeps(queue, started, running, pendingJobs, status, nextJobId, threads, w);
        threads := threads - {w};
        return None;
      }
      if queue == [] {
        return None;
      }
      job := Some(queue[0]);
      Start(w);
    }

    /** The job the worker finished is not pending any more. */
    method Forget(w: nat)
      requires Valid() && w in threads && !threads[w].Running?
      modifies this`pendingJobs, this`threads, this`status
      ensures Valid() && threads == old(threads)[w := Ready]
      ensures pendingJobs == old(pendingJobs) - if old(threads)[w].Finished? then {old(threads)[w].job} else {}
    {
      hide Kept;
      if threads[w].Finished? {
        var job := threads[w].job;
        ForgetKeeps(queue, started, running, pendingJobs, status, nextJobId, threads, w);
        pendingJobs := pendingJobs - {job};
        status := status[job := Done(true)];
        threads := threads[w := Ready];
      }
    }

    method Start(w: nat)
      requires Valid() && w in threads && threads[w].Ready? && queue != []
      modifies this`queue, this`threads, this`numRunning, this`started, this`running, this`status
      ensures Valid() && queue == old(queue)[1..] && started == old(started) + [old(queue)[0]]
      ensures old(queue)[0] !in old(started) && threads == old(threads)[w := Running(old(queue)[0])]
    {
      hide Kept;
      StartKeeps(queue, started, running, pendingJobs, status, nextJobId, threads, w);
      var job := queue[0];
      queue := queue[1..];
      threads := threads[w := Running(job)];
      numRunning := numRunning + 1;
      started := started + [job];
      running := running + {job};
      status := status[job := Active];
    }

    /** A worker is done with its job. */
    method Finish(w: nat)
      requires Valid() && w in threads && threads[w].Running?
      modifies this`threads, this`numRunning, this`running, this`status
      ensures Valid() && numRunning == old(numRunning) - 1
      ensures var job := old(threads)[w].job;
              threads == old(threads)[w := Finished(job)] && status == old(status)[job := Done(false)]
    {
      hide Kept;
      var job := threads[w].job;
      FinishKeeps(queue, started, running, pendingJobs, status, nextJobId, threads, w);
      threads := threads[w := Finished(job)];
      numRunning := numRunning - 1;
      running := running - {job};
      status := status[job := Done(false)];
    }

    method Exit()
      requires Valid()
      modifies this`doRun
      ensures Valid() && !doRun
    {
      doRun := false;
    }

    /** `sync()`: when it returns every accepted job has finished. */
    method Sync() returns (done: bool)
      requires Valid()
      ensures done <==> forall j: nat :: j < nextJobId ==> HasFinished(j)
    {
      done := numRunning == 0 && queue == [];
      if queue != [] {
        assert queue[0] in queue && queue[0] < nextJobId && !HasFinished(queue[0]);
      } else if numRunning > 0 {
        ghost var j :| j in running;
        assert j < nextJobId && !HasFinished(j);
      } else {
        assert running == {};
      }
    }

    /** `sync(barrier)`: when it returns every accepted job up to the barrier has finished. */
    method SyncBarrier(barrier: int) returns (done: bool)
      requires Valid()
      ensures done <==> forall j :: j in pendingJobs ==> j > barrier
      ensures done ==> forall j: nat :: j < nextJobId && j <= barrier ==> HasFinished(j)
    {
      done := forall j :: j in pendingJobs ==> j > barrier;
    }

    /** `sync(jobs)`: when it returns all accepted ones of these jobs have finished. */
    method SyncJobs(jobs: seq<nat>) returns (done: bool)
      requires Valid()
      ensures done <==> forall j :: j in jobs ==> j !in pendingJobs
      ensures done ==> forall j :: j in jobs && j < nextJobId ==> HasFinished(j)
    {
      done := true;
      var i := 0;
      while i < |jobs| && done
        invariant 0 <= i <= |jobs|
        invariant done ==> forall k :: 0 <= k < i ==> jobs[k] !in pendingJobs
        invariant !done ==> exists j :: j in jobs && j in pendingJobs
      {
        if jobs[i] in pendingJobs {
          done := false;
        }
        i := i + 1;
      }
    }
  }

  /**
   In every interleaving pending are exactly the jobs in the queue and those in the hands of a worker that
   has not locked the queue since, and no job is both.
   */
  lemma {:induction false} PendingExactly(pool: ThreadPool)
    requires pool.Valid()
    ensures forall j :: j in pool.pendingJobs <==> j in pool.queue || HasWorker(pool.threads, j)
    ensures forall j :: !(j in pool.queue && HasWorker(pool.threads, j))
  {
    hide Kept;
    PendingIsHeld(pool.queue, pool.started, pool.running, pool.pendingJobs, pool.status, pool.nextJobId, pool.threads);
  }
}
