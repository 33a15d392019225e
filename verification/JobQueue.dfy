/**
The in-memory job queue and the worker that drains it. Times are in nanoseconds.
 */
module JobQueue {
  import opened Wrappers

  datatype Status = Pending | Processing | Completed | DeadLetter

  datatype Job = Job(queue: string, status: Status, maxRetries: nat, retries: nat, scheduledAt: int)

  type Jobs = map<string, Job>

  const DEFAULT_MAX_RETRIES: nat := 3

  // ---------------------------------------------------------------------------------------
  // The operations as functions of the table
  // ---------------------------------------------------------------------------------------

  function NewJob(queue: string, maxRetries: int, now: int): (job: Job) {
    Job(queue, Pending, if maxRetries <= 0 then DEFAULT_MAX_RETRIES else maxRetries, 0, now)
  }

  predicate Ready(job: Job, queue: string, now: int) {
    job.queue == queue && job.status == Pending && job.scheduledAt <= now
  }

  const SECOND: nat := 1_000_000_000

  function TwoTo(n: nat): (p: nat) {
    if n == 0 then 1 else 2 * TwoTo(n - 1)
  }

  /** The value that 64-bit two's complement arithmetic leaves of n. */
  function Wrapped(n: int): (r: int)
    ensures -0x8000_0000_0000_0000 <= r < 0x8000_0000_0000_0000
    ensures -0x8000_0000_0000_0000 <= n < 0x8000_0000_0000_0000 ==> r == n
  {
    (n + 0x8000_0000_0000_0000) % 0x1_0000_0000_0000_0000 - 0x8000_0000_0000_0000
  }

  /** The delay after so many failures: 2^retries seconds, as a 64-bit duration. */
  function Backoff(retries: nat): (delay: int) {
    Wrapped(TwoTo(retries) * SECOND)
  }

  function Failed(job: Job, now: int): (r: Job) {
    var counted := job.(retries := job.retries + 1);
    if counted.retries >= counted.maxRetries then counted.(status := DeadLetter)
    else counted.(status := Pending, scheduledAt := now + Backoff(counted.retries))
  }

  function Retried(job: Job, now: int): (r: Job) {
    job.(status := Pending, retries := 0, scheduledAt := now)
  }

  /** A job that can still run has attempts left. */
  predicate Sound(job: Job) {
    job.maxRetries > 0 && (job.status == Pending || job.status == Processing ==> job.retries < job.maxRetries)
  }

  ghost predicate AllSound(jobs: Jobs) {
    forall id :: id in jobs ==> Sound(jobs[id])
  }

  // ---------------------------------------------------------------------------------------
  // Remaining attempts
  // ---------------------------------------------------------------------------------------

  function AttemptsLeft(job: Job): (n: nat)
    requires Sound(job)
  {
    if job.status == Pending || job.status == Processing then job.maxRetries - job.retries else 0
  }

  ghost function SumLeft(jobs: Jobs, ids: set<string>): (n: nat)
    requires AllSound(jobs) && ids <= jobs.Keys
    decreases |ids|
  {
    if ids == {} then 0
    else
      var id :| id in ids;
      AttemptsLeft(jobs[id]) + SumLeft(jobs, ids - {id})
  }

  ghost function TotalLeft(jobs: Jobs): (n: nat)
    requires AllSound(jobs)
  {
    SumLeft(jobs, jobs.Keys)
  }

  lemma {:induction false} SumTakesOut(jobs: Jobs, ids: set<string>, id: string)
    requires AllSound(jobs) && ids <= jobs.Keys && id in ids
    ensures SumLeft(jobs, ids) == AttemptsLeft(jobs[id]) + SumLeft(jobs, ids - {id})
    decreases |ids|
  {
    var x :| x in ids && SumLeft(jobs, ids) == AttemptsLeft(jobs[x]) + SumLeft(jobs, ids - {x});
    if x != id {
      SumTakesOut(jobs, ids - {x}, id);
      SumTakesOut(jobs, ids - {id}, x);
      assert ids - {x} - {id} == ids - {id} - {x};
    }
  }

  lemma {:induction false} SumIgnoresOthers(jobs: Jobs, other: Jobs, ids: set<string>)
    requires AllSound(jobs) && AllSound(other) && ids <= jobs.Keys && ids <= other.Keys
    requires forall id :: id in ids ==> jobs[id] == other[id]
    ensures SumLeft(jobs, ids) == SumLeft(other, ids)
    decreases |ids|
  {
    if ids != {} {
      var id :| id in ids;
      SumTakesOut(jobs, ids, id);
      SumTakesOut(other, ids, id);
      SumIgnoresOthers(jobs, other, ids - {id});
    }
  }

  /** Changing one job changes the total by what that job's attempts change. */
  lemma TotalAfterUpdate(jobs: Jobs, id: string, job: Job)
    requires AllSound(jobs) && id in jobs && Sound(job)
    ensures AllSound(jobs[id := job])
    ensures TotalLeft(jobs[id := job]) == TotalLeft(jobs) - AttemptsLeft(jobs[id]) + AttemptsLeft(job)
  {
    var after := jobs[id := job];
    assert after.Keys == jobs.Keys;
    SumTakesOut(jobs, jobs.Keys, id);
    SumTakesOut(after, jobs.Keys, id);
    SumIgnoresOthers(jobs, after, jobs.Keys - {id});
  }

  /** The table after a worker took a ready job and finished it. */
  function Processed(jobs: Jobs, id: string, ok: bool, now: int): (r: Jobs)
    requires id in jobs
  {
    var taken := jobs[id].(status := Processing);
    jobs[id := if ok then taken.(status := Completed) else Failed(taken, now)]
  }

  /** Every round of the drain loop uses up at least one attempt. */
  lemma ProcessingUsesAttempts(jobs: Jobs, id: string, ok: bool, now: int)
    requires AllSound(jobs) && id in jobs && jobs[id].status == Pending
    ensures AllSound(Processed(jobs, id, ok, now))
    ensures TotalLeft(Processed(jobs, id, ok, now)) < TotalLeft(jobs)
    ensures !ok ==> TotalLeft(Processed(jobs, id, ok, now)) == TotalLeft(jobs) - 1
  {
    var taken := jobs[id].(status := Processing);
    var job := if ok then taken.(status := Completed) else Failed(taken, now);
    TotalAfterUpdate(jobs, id, job);
  }

  lemma {:induction false} TwoToGrows(m: nat, n: nat)
    requires m <= n
    ensures TwoTo(m) <= TwoTo(n)
    decreases n
  {
    if m < n {
      TwoToGrows(m, n - 1);
    }
  }

  lemma TwoTo33()
    ensures TwoTo(33) == 0x2_0000_0000 && TwoTo(34) == 0x4_0000_0000
  {
    assert TwoTo(8) == 0x100;
    assert TwoTo(16) == 0x1_0000;
    assert TwoTo(24) == 0x100_0000;
    assert TwoTo(32) == 0x1_0000_0000;
  }

  /** The back-off is 2^retries seconds if and only if retries is at most 33; from 34 on the product
      leaves 64 bits. */
  lemma BackoffIsExactIff(retries: nat)
    ensures Backoff(retries) == TwoTo(retries) * SECOND <==> retries <= 33
  {
    TwoTo33();
    if retries <= 33 {
      TwoToGrows(retries, 33);
    } else {
      TwoToGrows(34, retries);
    }
  }

  /** The 34th failure schedules the job in the past: the wrapped delay is negative. */
  lemma BackoffTurnsNegative()
    ensures Backoff(34) < 0
  {
    TwoTo33();
  }

  /** A job that fails k times, each time at the moment it becomes ready. */
  function AfterFailures(job: Job, k: nat): (r: Job) {
    if k == 0 then job else var last := AfterFailures(job, k - 1); Failed(last, last.scheduledAt)
  }

  /** The back-off adds up to 2 + 4 + ... + 2^k seconds over k failures, as long as no delay leaves 64
      bits; the last allowed failure sends the job to the dead letters. */
  lemma {:induction false} BackoffAddsUp(job: Job, k: nat)
    requires job.status == Pending && job.retries == 0 && k <= job.maxRetries
    ensures var r := AfterFailures(job, k);
      && r.retries == k && r.maxRetries == job.maxRetries
      && (k < job.maxRetries ==> r.status == Pending)
      && (k < job.maxRetries && k <= 33 ==> r.scheduledAt == job.scheduledAt + (2 * TwoTo(k) - 2) * SECOND)
      && (k == job.maxRetries && k > 0 ==> r.status == DeadLetter)
  {
    if k > 0 {
      BackoffAddsUp(job, k - 1);
      BackoffIsExactIff(k);
    }
  }

  // ---------------------------------------------------------------------------------------
  // The queue as it runs
  // ---------------------------------------------------------------------------------------

  class Queue {
    var memory: Jobs

    ghost predicate Valid()
      reads this
    {
      AllSound(memory)
    }

    constructor ()
      ensures Valid() && memory == map[]
    {
      memory := map[];
    }

    /** id is the freshly minted job id. */
    method Enqueue(id: string, queue: string, maxRetries: int, now: int)
      requires Valid() && id !in memory
      modifies this
      ensures Valid()
      ensures memory == old(memory)[id := NewJob(queue, maxRetries, now)]
    {
      var retries := maxRetries;
      if retries <= 0 {
        retries := DEFAULT_MAX_RETRIES;
      }
      memory := memory[id := Job(queue, Pending, retries, 0, now)];
    }

    /** Hands out some ready job of the queue, if there is one, in whatever order the table is
        iterated. */
    method Dequeue(queue: string, now: int) returns (id: Option<string>)
      requires Valid()
      modifies this
      ensures Valid()
      ensures id.None? ==> memory == old(memory) && forall x :: x in memory ==> !Ready(memory[x], queue, now)
      ensures id.Some? ==> id.value in old(memory) && Ready(old(memory)[id.value], queue, now)
      ensures id.Some? ==> memory == old(memory)[id.value := old(memory)[id.value].(status := Processing)]
    {
      var todo := memory.Keys;
      while todo != {}
        invariant todo <= memory.Keys && memory == old(memory)
        invariant forall x :: x in memory && x !in todo ==> !Ready(memory[x], queue, now)
        decreases |todo|
      {
        var x :| x in todo;
        todo := todo - {x};
        if Ready(memory[x], queue, now) {
          memory := memory[x := memory[x].(status := Processing)];
          return Some(x);
        }
      }
      return None;
    }

    method Complete(id: string)
      requires Valid()
      modifies this
      ensures Valid()
      ensures memory == if id in old(memory) then old(memory)[id := old(memory)[id].(status := Completed)]
          else old(memory)
    {
      if id in memory {
        memory := memory[id := memory[id].(status := Completed)];
      }
    }

    method Fail(id: string, now: int)
      requires Valid()
      modifies this
      ensures Valid()
      ensures memory == if id in old(memory) then old(memory)[id := Failed(old(memory)[id], now)] else old(memory)
    {
      if id in memory {
        var job := memory[id];
        job := job.(retries := job.retries + 1);
        if job.retries >= job.maxRetries {
          job := job.(status := DeadLetter);
        } else {
          job := job.(status := Pending, scheduledAt := now + Backoff(job.retries));
        }
        memory := memory[id := job];
      }
    }

    method RetryDeadLetterJob(id: string, now: int) returns (ok: bool)
      requires Valid()
      modifies this
      ensures Valid()
      ensures ok <==> id in old(memory) && old(memory)[id].status == DeadLetter
      ensures memory == if ok then old(memory)[id := Retried(old(memory)[id], now)] else old(memory)
    {
      if id !in memory || memory[id].status != DeadLetter {
        return false;
      }
      memory := memory[id := memory[id].(status := Pending, retries := 0, scheduledAt := now)];
      return true;
    }

    /** One round of the drain loop: takes a ready job at time taken, if there is one, runs its handler
        and records the outcome at time finished. */
    method ProcessOne(queue: string, ok: bool, taken: int, finished: int) returns (id: Option<string>)
      requires Valid()
      modifies this
      ensures Valid()
      ensures id.None? ==> memory == old(memory) && forall x :: x in memory ==> !Ready(memory[x], queue, taken)
      ensures id.Some? ==> id.value in old(memory) && Ready(old(memory)[id.value], queue, taken)
      ensures id.Some? ==>
        memory == Processed(old(memory), id.value, ok, finished) && TotalLeft(memory) < TotalLeft(old(memory))
    {
      id := Dequeue(queue, taken);
      if id.None? {
        return;
      }
      ProcessingUsesAttempts(old(memory), id.value, ok, finished);
      if ok {
        Complete(id.value);
      } else {
        Fail(id.value, finished);
      }
      assert memory == Processed(old(memory), id.value, ok, finished);
    }

    /** Drains one queue: takes ready jobs and runs the handler until none is ready. handles gives the
        outcome of the k-th run; clock gives the readings of the clock, two per run. The drain
        terminates, leaves no job of the queue ready, touches no other queue, and runs the handler no
        more often than there were attempts left; ids are the jobs in the order of their runs. */
    method DrainQueue(queue: string, handles: nat -> bool, clock: nat -> int) returns (runs: nat, ids: seq<string>)
      requires Valid()
      modifies this
      ensures Valid()
      ensures forall x :: x in memory ==> !Ready(memory[x], queue, clock(2 * runs))
      ensures OthersUntouched(old(memory), memory, queue)
      ensures runs + TotalLeft(memory) <= TotalLeft(old(memory))
      ensures |ids| == runs && Drains(old(memory), ids, queue, handles, clock)
      ensures memory == Drained(old(memory), ids, handles, clock)
    {
      runs, ids := 0, [];
      while true
        invariant Valid() && runs + TotalLeft(memory) <= TotalLeft(old(memory))
        invariant |ids| == runs && Drains(old(memory), ids, queue, handles, clock)
        invariant memory == Drained(old(memory), ids, handles, clock)
        decreases TotalLeft(memory)
      {
        ghost var before := memory;
        var id := ProcessOne(queue, handles(runs), clock(2 * runs), clock(2 * runs + 1));
        if id.None? {
          DrainTouchesOnlyQueue(old(memory), ids, queue, handles, clock);
          return;
        }
        DrainOneMore(old(memory), before, ids, id.value, queue, handles, clock);
        ids := ids + [id.value];
        runs := runs + 1;
      }
    }
  }

  /** The table after the k-th run has processed the k-th job, for all of them. */
  ghost function Drained(jobs: Jobs, ids: seq<string>, handles: nat -> bool, clock: nat -> int): (r: Jobs) {
    if ids == [] then jobs
    else
      var n := |ids| - 1;
      var before := Drained(jobs, ids[..n], handles, clock);
      if ids[n] in before then Processed(before, ids[n], handles(n), clock(2 * n + 1)) else before
  }

  /** Every run was of a job of the queue that was pending and whose time had come. */
  ghost predicate Drains(jobs: Jobs, ids: seq<string>, queue: string, handles: nat -> bool, clock: nat -> int) {
    ids == [] ||
    var n := |ids| - 1;
    var before := Drained(jobs, ids[..n], handles, clock);
    && Drains(jobs, ids[..n], queue, handles, clock)
    && ids[n] in before && before[ids[n]].queue == queue && before[ids[n]].status == Pending
    && before[ids[n]].scheduledAt <= clock(2 * n)
  }

  lemma DrainOneMore(jobs: Jobs, before: Jobs, ids: seq<string>, id: string, queue: string, handles: nat -> bool,
                     clock: nat -> int)
    requires Drains(jobs, ids, queue, handles, clock) && before == Drained(jobs, ids, handles, clock)
    requires id in before && Ready(before[id], queue, clock(2 * |ids|))
    ensures Drains(jobs, ids + [id], queue, handles, clock)
    ensures Drained(jobs, ids + [id], handles, clock) == Processed(before, id, handles(|ids|), clock(2 * |ids| + 1))
  {
    assert (ids + [id])[..|ids|] == ids;
  }

  /** The same jobs, and those of other queues unchanged. */
  ghost predicate OthersUntouched(before: Jobs, after: Jobs, queue: string) {
    && before.Keys == after.Keys
    && forall x :: x in after ==>
        after[x].queue == before[x].queue && (after[x].queue != queue ==> after[x] == before[x])
  }

  lemma TouchesOnlyQueue(start: Jobs, jobs: Jobs, id: string, ok: bool, now: int, queue: string)
    requires OthersUntouched(start, jobs, queue) && id in jobs && jobs[id].queue == queue
    ensures OthersUntouched(start, Processed(jobs, id, ok, now), queue)
  {
  }

  lemma {:induction false} DrainTouchesOnlyQueue(jobs: Jobs, ids: seq<string>, queue: string, handles: nat -> bool,
                                                 clock: nat -> int)
    requires Drains(jobs, ids, queue, handles, clock)
    ensures OthersUntouched(jobs, Drained(jobs, ids, handles, clock), queue)
  {
    if ids != [] {
      var n := |ids| - 1;
      DrainTouchesOnlyQueue(jobs, ids[..n], queue, handles, clock);
      TouchesOnlyQueue(jobs, Drained(jobs, ids[..n], handles, clock), ids[n], handles(n), clock(2 * n + 1), queue);
    }
  }

  // ---------------------------------------------------------------------------------------
  // Many workers
  // ---------------------------------------------------------------------------------------

  /** held maps a worker to the job it is running; attempts counts how often a job was handed out
      since it was enqueued or last retried from the dead-letter state. */
  datatype World = World(jobs: Jobs, held: map<nat, string>, attempts: map<string, nat>)

  const EMPTY: World := World(map[], map[], map[])

  datatype Action =
    | Enqueue(id: string, queue: string, maxRetries: int, now: int)
    | Take(worker: nat, id: string, queue: string, now: int)
    | Finish(worker: nat, ok: bool, now: int)
    | Crash(worker: nat)
    | RetryDead(id: string, now: int)

  ghost function Step(w: World, a: Action): (r: World) {
    match a
    case Enqueue(id, queue, maxRetries, now) =>
      if id in w.jobs then w
      else w.(jobs := w.jobs[id := NewJob(queue, maxRetries, now)], attempts := w.attempts[id := 0])
    case Take(worker, id, queue, now) =>
      if worker in w.held || id !in w.jobs || id !in w.attempts || !Ready(w.jobs[id], queue, now) then w
      else World(w.jobs[id := w.jobs[id].(status := Processing)], w.held[worker := id],
          w.attempts[id := w.attempts[id] + 1])
    case Finish(worker, ok, now) =>
      if worker !in w.held || w.held[worker] !in w.jobs then w
      else
        var id := w.held[worker];
        w.(jobs := w.jobs[id := if ok then w.jobs[id].(status := Completed) else Failed(w.jobs[id], now)],
           held := w.held - {worker})
    case Crash(worker) => w.(held := w.held - {worker})
    case RetryDead(id, now) =>
      if id !in w.jobs || w.jobs[id].status != DeadLetter then w
      else w.(jobs := w.jobs[id := Retried(w.jobs[id], now)], attempts := w.attempts[id := 0])
  }

  ghost function Run(w: World, actions: seq<Action>): (r: World)
    decreases |actions|
  {
    if actions == [] then w else Step(Run(w, actions[..|actions| - 1]), actions[|actions| - 1])
  }

  /** The attempts a job has used, as its status tells. */
  ghost predicate Accounted(job: Job, attempts: nat) {
    match job.status
    case Pending => attempts == job.retries
    case Processing => attempts == job.retries + 1
    case Completed => attempts <= job.maxRetries
    case DeadLetter => attempts <= job.maxRetries
  }

  ghost predicate TableInv(jobs: Jobs, attempts: map<string, nat>) {
    && AllSound(jobs) && attempts.Keys == jobs.Keys
    && forall id :: id in jobs ==> Accounted(jobs[id], attempts[id])
  }

  ghost predicate HeldInv(jobs: Jobs, held: map<nat, string>) {
    && (forall k :: k in held ==> held[k] in jobs && jobs[held[k]].status == Processing)
    && (forall k, l :: k in held && l in held && held[k] == held[l] ==> k == l)
  }

  ghost predicate Inv(w: World) {
    TableInv(w.jobs, w.attempts) && HeldInv(w.jobs, w.held)
  }

  /** Replacing one job and its count keeps the table in order. */
  lemma UpdateKeepsTable(jobs: Jobs, attempts: map<string, nat>, id: string, job: Job, n: nat)
    requires TableInv(jobs, attempts) && Sound(job) && Accounted(job, n)
    ensures TableInv(jobs[id := job], attempts[id := n])
  {
  }

  /** Replacing a job that nobody holds does not concern the holders. */
  lemma UpdateKeepsHeld(jobs: Jobs, held: map<nat, string>, id: string, job: Job)
    requires HeldInv(jobs, held) && (id in jobs ==> jobs[id].status != Processing)
    ensures HeldInv(jobs[id := job], held)
  {
  }

  lemma TakeKeepsHeld(jobs: Jobs, held: map<nat, string>, worker: nat, id: string, job: Job)
    requires HeldInv(jobs, held) && id in jobs && jobs[id].status == Pending
        && job.status == Processing && worker !in held
    ensures HeldInv(jobs[id := job], held[worker := id])
  {
  }

  lemma FinishKeepsHeld(jobs: Jobs, held: map<nat, string>, worker: nat, job: Job)
    requires HeldInv(jobs, held) && worker in held
    ensures HeldInv(jobs[held[worker] := job], held - {worker})
  {
  }

  lemma StepKeepsInv(w: World, a: Action)
    requires Inv(w)
    ensures Inv(Step(w, a))
  {
    match a {
      case Enqueue(id, queue, maxRetries, now) =>
        UpdateKeepsTable(w.jobs, w.attempts, id, NewJob(queue, maxRetries, now), 0);
        if id !in w.jobs {
          UpdateKeepsHeld(w.jobs, w.held, id, NewJob(queue, maxRetries, now));
        }
      case Take(worker, id, queue, now) =>
        if worker !in w.held && id in w.jobs && Ready(w.jobs[id], queue, now) {
          var job := w.jobs[id].(status := Processing);
          UpdateKeepsTable(w.jobs, w.attempts, id, job, w.attempts[id] + 1);
          TakeKeepsHeld(w.jobs, w.held, worker, id, job);
        }
      case Finish(worker, ok, now) =>
        if worker in w.held {
          var id := w.held[worker];
          var job := if ok then w.jobs[id].(status := Completed) else Failed(w.jobs[id], now);
          UpdateKeepsTable(w.jobs, w.attempts, id, job, w.attempts[id]);
          assert w.attempts[id := w.attempts[id]] == w.attempts;
          FinishKeepsHeld(w.jobs, w.held, worker, job);
        }
      case Crash(worker) =>
      case RetryDead(id, now) =>
        if id in w.jobs && w.jobs[id].status == DeadLetter {
          UpdateKeepsTable(w.jobs, w.attempts, id, Retried(w.jobs[id], now), 0);
          UpdateKeepsHeld(w.jobs, w.held, id, Retried(w.jobs[id], now));
        }
    }
  }

  /** In every run of any number of workers, with crashes, dead-letter retries and new jobs: no two
      workers hold the same job, a held job is being processed, every job that can still run has
      attempts left, and no job is handed out more than MaxRetries times per enqueue or retry. */
  lemma {:induction false} AttemptsAreBounded(actions: seq<Action>)
    ensures var w := Run(EMPTY, actions);
      && Inv(w)
      && forall id :: id in w.jobs ==> id in w.attempts && w.attempts[id] <= w.jobs[id].maxRetries
    decreases |actions|
  {
    if actions != [] {
      AttemptsAreBounded(actions[..|actions| - 1]);
      StepKeepsInv(Run(EMPTY, actions[..|actions| - 1]), actions[|actions| - 1]);
    }
  }

  // ---------------------------------------------------------------------------------------
  // When a job is handed out
  // ---------------------------------------------------------------------------------------

  ghost predicate HandedTo(w: World, worker: nat, id: string) {
    worker in w.held && w.held[worker] == id
  }

  /** A free worker that asks for a job of a queue gets it. */
  ghost predicate GetsIt(w: World, worker: nat, id: string, queue: string, now: int) {
    worker !in w.held && HandedTo(Step(w, Take(worker, id, queue, now)), worker, id)
  }

  lemma GetsItIff(w: World, worker: nat, id: string, queue: string, now: int)
    requires Inv(w) && worker !in w.held
    ensures GetsIt(w, worker, id, queue, now) <==>
      id in w.jobs && w.jobs[id].queue == queue && w.jobs[id].status == Pending && w.jobs[id].scheduledAt <= now
  {
  }

  lemma FailedJob(job: Job, at: int)
    requires job.retries < 33
    ensures var r := Failed(job, at);
      && r.retries == job.retries + 1 && r.queue == job.queue
      && (job.retries + 1 < job.maxRetries ==>
            r.status == Pending && r.scheduledAt == at + TwoTo(job.retries + 1) * SECOND)
      && (job.retries + 1 >= job.maxRetries ==> r.status == DeadLetter)
  {
    BackoffIsExactIff(job.retries + 1);
  }

  /** A job is handed out if and only if it is pending in that queue and its time has come; the table and the
      other workers do not change otherwise. */
  lemma HandedOutIff(actions: seq<Action>, worker: nat, id: string, queue: string, now: int)
    requires worker !in Run(EMPTY, actions).held
    ensures var w := Run(EMPTY, actions);
      var next := Step(w, Take(worker, id, queue, now));
      && (GetsIt(w, worker, id, queue, now) <==>
            id in w.jobs && w.jobs[id].queue == queue && w.jobs[id].status == Pending && w.jobs[id].scheduledAt <= now)
      && (!GetsIt(w, worker, id, queue, now) ==> next == w)
      && (forall x :: x in w.jobs && x != id ==> x in next.jobs && next.jobs[x] == w.jobs[x])
  {
    AttemptsAreBounded(actions);
  }

  /** A new job waits for nothing but its own time, in its own queue, with its own limit or 3. */
  lemma NewJobIsDue(actions: seq<Action>, id: string, queue: string, maxRetries: int, at: int, worker: nat,
                    asked: string, now: int)
    requires id !in Run(EMPTY, actions).jobs && worker !in Run(EMPTY, actions).held
    ensures var w := Step(Run(EMPTY, actions), Enqueue(id, queue, maxRetries, at));
      && (GetsIt(w, worker, id, asked, now) <==> asked == queue && at <= now)
      && id in w.jobs && w.jobs[id].retries == 0 && w.jobs[id].maxRetries == if maxRetries > 0 then maxRetries else 3
  {
    AttemptsAreBounded(actions);
  }

  /** A job that fails with attempts left is due again 2^n seconds after its n-th failure, and not before; one
      that fails for the last time is not handed out again. */
  lemma FailedJobIsDue(actions: seq<Action>, holder: nat, at: int, worker: nat, now: int)
    requires var w := Run(EMPTY, actions);
      && holder in w.held && (worker !in w.held || worker == holder)
      && w.held[holder] in w.jobs && w.jobs[w.held[holder]].retries < 33
    ensures var w := Run(EMPTY, actions);
      var id, job := w.held[holder], w.jobs[w.held[holder]];
      var failed := Step(w, Finish(holder, false, at));
      && (job.retries + 1 < job.maxRetries ==>
            (GetsIt(failed, worker, id, job.queue, now) <==> at + TwoTo(job.retries + 1) * SECOND <= now))
      && (job.retries + 1 >= job.maxRetries ==> !GetsIt(failed, worker, id, job.queue, now))
      && id in failed.jobs && failed.jobs[id].retries == job.retries + 1
  {
    AttemptsAreBounded(actions);
    var w := Run(EMPTY, actions);
    var id := w.held[holder];
    FailedJob(w.jobs[id], at);
    StepKeepsInv(w, Finish(holder, false, at));
    GetsItIff(Step(w, Finish(holder, false, at)), worker, id, w.jobs[id].queue, now);
  }

  /** A job whose run succeeds is completed. */
  lemma FinishedJobIsCompleted(actions: seq<Action>, holder: nat, at: int)
    requires holder in Run(EMPTY, actions).held
    ensures var w := Run(EMPTY, actions);
      var next := Step(w, Finish(holder, true, at));
      w.held[holder] in next.jobs && next.jobs[w.held[holder]].status == Completed && holder !in next.held
  {
    AttemptsAreBounded(actions);
  }

  /** A completed or dead job stays as it is, and out of every worker's hands, in every run that does not
      retry it. */
  lemma {:induction false} SettledStays(w: World, actions: seq<Action>, id: string)
    requires Inv(w) && id in w.jobs && (w.jobs[id].status == Completed || w.jobs[id].status == DeadLetter)
    requires forall i :: 0 <= i < |actions| ==> !(actions[i].RetryDead? && actions[i].id == id)
    ensures var end := Run(w, actions);
      Inv(end) && id in end.jobs && end.jobs[id] == w.jobs[id] && forall k :: k in end.held ==> end.held[k] != id
    decreases |actions|
  {
    if actions != [] {
      var init, a := actions[..|actions| - 1], actions[|actions| - 1];
      SettledStays(w, init, id);
      StepKeepsInv(Run(w, init), a);
    }
  }

  /** A dead job that is retried is due at once, with all its attempts back; any other job is left alone. */
  lemma RetriedJobIsDue(actions: seq<Action>, id: string, at: int, worker: nat, now: int)
    requires id in Run(EMPTY, actions).jobs && worker !in Run(EMPTY, actions).held
    ensures var w := Run(EMPTY, actions);
      var next := Step(w, RetryDead(id, at));
      && (w.jobs[id].status != DeadLetter ==> next == w)
      && (w.jobs[id].status == DeadLetter ==>
            && (GetsIt(next, worker, id, w.jobs[id].queue, now) <==> at <= now)
            && next.jobs[id].retries == 0 && next.jobs[id].maxRetries == w.jobs[id].maxRetries)
  {
    AttemptsAreBounded(actions);
  }
}
