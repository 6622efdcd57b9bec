/**
 The in-memory job queue. A poll starts every due job without waiting for it; a job's handler
 finishes at any later time, between or after further polls.
 */
module JobQueues {
  import opened Base

  type JobId = string

  datatype Status = Pending | Running | Completed | Failed | Dead

  /** ISO timestamps are represented by their milliseconds. */
  datatype Job = Job(kind: string, status: Status, attempts: nat, maxRetries: int, runAt: int)

  function Power2(n: nat): nat {
    if n == 0 then 1 else 2 * Power2(n - 1)
  }

  function BackoffMs(attempts: nat): nat {
    Min(1_000 * Power2(attempts), 60_000)
  }

  /** 2, 4, 8, 16 and 32 seconds, and a minute from the sixth failure on. */
  lemma {:induction false} BackoffValues(k: nat)
    ensures BackoffMs(1) == 2_000 && BackoffMs(2) == 4_000 && BackoffMs(3) == 8_000 && BackoffMs(4) == 16_000
    ensures BackoffMs(5) == 32_000
    ensures k >= 6 ==> BackoffMs(k) == 60_000
  {
    assert Power2(1) == 2 && Power2(2) == 4 && Power2(3) == 8 && Power2(4) == 16 && Power2(5) == 32;
    if k == 6 {
      assert Power2(6) == 64;
    } else if k > 6 {
      BackoffValues(k - 1);
    }
  }

  predicate IsDue(j: Job, now: nat) {
    j.status == Pending && j.runAt <= now
  }

  // ---- processJob, before and after its await ----

  function Begun(handlers: set<string>, j: Job): Job {
    if j.kind !in handlers then j.(status := Dead) else j.(status := Running, attempts := j.attempts + 1)
  }

  /** snapshot is the record that processJob was given; current is the one in the map now. */
  function Ended(snapshot: Job, current: Job, ok: bool, now: nat): Job {
    if ok then current.(status := Completed)
    else if snapshot.attempts + 1 >= snapshot.maxRetries then current.(status := Dead)
    else current.(status := Pending, runAt := now + BackoffMs(snapshot.attempts + 1))
  }

  function Polled(jobs: map<JobId, Job>, handlers: set<string>, now: nat): map<JobId, Job> {
    map id | id in jobs :: if IsDue(jobs[id], now) then Begun(handlers, jobs[id]) else jobs[id]
  }

  class InMemoryJobQueue {
    var jobs: map<JobId, Job>
    var handlers: set<string>

    constructor ()
      ensures jobs == map[] && handlers == {}
    {
      jobs := map[];
      handlers := {};
    }

    method Submit(id: JobId, kind: string, maxRetries: Option<int>, delayMs: Option<int>, now: nat) returns (job: Job)
      modifies this
      ensures jobs == old(jobs)[id := job] && handlers == old(handlers)
      ensures job == Submitted(kind, maxRetries, delayMs, now)
    {
      var runAt := if delayMs.Some? && delayMs.value != 0 then now + delayMs.value else now;
      job := Job(kind, Pending, 0, if maxRetries.Some? then maxRetries.value else 3, runAt);
      jobs := jobs[id := job];
    }

    method RegisterHandler(kind: string)
      modifies this
      ensures jobs == old(jobs) && handlers == old(handlers) + {kind}
    {
      handlers := handlers + {kind};
    }

    /** processJob up to the await of the handler; started says whether the handler was called. */
    method BeginJob(id: JobId) returns (started: bool)
      requires id in jobs
      modifies this`jobs
      ensures jobs == old(jobs)[id := Begun(handlers, old(jobs)[id])]
      ensures started == (old(jobs)[id].kind in handlers)
    {
      var job := jobs[id];
      if job.kind !in handlers {
        jobs := jobs[id := job.(status := Dead)];
        return false;
      }
      jobs := jobs[id := job.(status := Running, attempts := job.attempts + 1)];
      return true;
    }

    /** processJob after the handler resolved or rejected. */
    method EndJob(id: JobId, job: Job, ok: bool, now: nat)
      requires id in jobs
      modifies this`jobs
      ensures jobs == old(jobs)[id := Ended(job, old(jobs)[id], ok, now)]
    {
      if ok {
        jobs := jobs[id := jobs[id].(status := Completed)];
      } else {
        var newAttempts := job.attempts + 1;
        if newAttempts >= job.maxRetries {
          jobs := jobs[id := jobs[id].(status := Dead)];
        } else {
          var backoffMs := Min(1_000 * Power2(newAttempts), 60_000);
          jobs := jobs[id := jobs[id].(status := Pending, runAt := now + backoffMs)];
        }
      }
    }

    method Poll(now: nat) returns (started: set<JobId>)
      modifies this`jobs
      ensures jobs == Polled(old(jobs), handlers, now)
      ensures started == set id | id in old(jobs) && IsDue(old(jobs)[id], now) && old(jobs)[id].kind in handlers
    {
      started := {};
      var todo := jobs.Keys;
      while todo != {}
        invariant todo <= jobs.Keys == old(jobs).Keys
        invariant forall id :: id in jobs ==>
                    jobs[id] == if id !in todo && IsDue(old(jobs)[id], now) then Begun(handlers, old(jobs)[id]) else old(jobs)[id]
        invariant started == set id | id in old(jobs) && id !in todo && IsDue(old(jobs)[id], now) && old(jobs)[id].kind in handlers
        decreases todo
      {
        var id :| id in todo;
        if jobs[id].status == Pending && jobs[id].runAt <= now {
          var called := BeginJob(id);
          if called {
            started := started + {id};
          }
        }
        todo := todo - {id};
      }
    }
  }

  function Submitted(kind: string, maxRetries: Option<int>, delayMs: Option<int>, now: nat): Job {
    Job(kind, Pending, 0, if maxRetries.Some? then maxRetries.value else 3,
        now + if delayMs.Some? then delayMs.value else 0)
  }

  // ---- Runs ----

  /** The nth call of the job's handler, not finished yet. */
  datatype Invocation = Invocation(id: JobId, nth: nat, job: Job)

  /** starts and failures record, for each job, when its handler was called and when it failed. */
  datatype Queue = Queue(
    jobs: map<JobId, Job>, handlers: set<string>, live: set<Invocation>,
    starts: map<JobId, seq<nat>>, failures: map<JobId, seq<nat>>)

  const EMPTY := Queue(map[], {}, {}, map[], map[])

  datatype Event =
    | Submit(id: JobId, kind: string, maxRetries: Option<int>, delayMs: Option<int>, now: nat)
    | Register(kind: string)
    | Poll(now: nat)
    | Finish(call: Invocation, ok: bool, now: nat)

  /** Ids are new, and only a call that is under way finishes. */
  predicate Enabled(q: Queue, e: Event) {
    match e
    case Submit(id, _, _, _, _) => id !in q.jobs
    case Finish(call, _, _) => call in q.live && call.id in q.jobs && call.id in q.failures
    case _ => true
  }

  predicate Starts(q: Queue, id: JobId, now: nat) {
    id in q.jobs && IsDue(q.jobs[id], now) && q.jobs[id].kind in q.handlers
  }

  function NextJobs(q: Queue, e: Event): map<JobId, Job>
    requires Enabled(q, e)
  {
    match e
    case Submit(id, kind, maxRetries, delayMs, now) => q.jobs[id := Submitted(kind, maxRetries, delayMs, now)]
    case Register(_) => q.jobs
    case Poll(now) => Polled(q.jobs, q.handlers, now)
    case Finish(call, ok, now) => q.jobs[call.id := Ended(call.job, q.jobs[call.id], ok, now)]
  }

  function NextLive(q: Queue, e: Event): set<Invocation> {
    match e
    case Poll(now) =>
      q.live + set id | id in q.jobs.Keys * q.starts.Keys && Starts(q, id, now) :: Invocation(id, |q.starts[id]|, q.jobs[id])
    case Finish(call, _, _) => q.live - {call}
    case _ => q.live
  }

  function NextStarts(q: Queue, e: Event): map<JobId, seq<nat>> {
    match e
    case Submit(id, _, _, _, _) => q.starts[id := []]
    case Poll(now) => map id | id in q.starts :: if Starts(q, id, now) then q.starts[id] + [now] else q.starts[id]
    case _ => q.starts
  }

  function NextFailures(q: Queue, e: Event): map<JobId, seq<nat>>
    requires Enabled(q, e)
  {
    match e
    case Submit(id, _, _, _, _) => q.failures[id := []]
    case Finish(call, ok, now) => if ok then q.failures else q.failures[call.id := q.failures[call.id] + [now]]
    case _ => q.failures
  }

  function Next(q: Queue, e: Event): Queue
    requires Enabled(q, e)
  {
    Queue(NextJobs(q, e), if e.Register? then q.handlers + {e.kind} else q.handlers,
          NextLive(q, e), NextStarts(q, e), NextFailures(q, e))
  }

  ghost predicate Reaches(run: seq<Event>, k: nat, q: Queue)
    requires k <= |run|
  {
    QueueAt(run, k) == Some(q)
  }

  function QueueAt(run: seq<Event>, k: nat): Option<Queue>
    requires k <= |run|
  {
    if k == 0 then Some(EMPTY) else
      var before := QueueAt(run, k - 1);
      if before.Some? && Enabled(before.value, run[k - 1]) then Some(Next(before.value, run[k - 1])) else None
  }

  // ---- The invariant of one job ----

  function Limit(j: Job): nat {
    if j.maxRetries < 1 then 1 else j.maxRetries
  }

  /** The handler call that a running job waits for. */
  function LatestCall(id: JobId, j: Job): Invocation {
    var nth := if j.attempts == 0 then 0 else j.attempts - 1;
    Invocation(id, nth, j.(status := Pending, attempts := nth))
  }

  predicate JobOk(q: Queue, id: JobId) {
    id in q.jobs ==>
      id in q.starts && id in q.failures &&
      var (j, s, f) := (q.jobs[id], q.starts[id], q.failures[id]);
      && j.attempts == |s| <= Limit(j) && j.status != Failed
      && (j.status == Pending ==>
            |f| == |s| && (|s| == 0 || (|s| < j.maxRetries && j.runAt == f[|f| - 1] + BackoffMs(|s|))))
      && (j.status == Running || j.status == Completed ==> |s| == |f| + 1)
      && (j.status == Dead ==> |s| == |f| && (|s| == 0 || |s| == Limit(j)))
      && (|s| > 0 ==> j.kind in q.handlers)
      && (j.status == Running ==> LatestCall(id, j) in q.live)
      && |f| <= |s|
      // Each retry waits for the backoff after the failure before it.
      && (forall k :: 1 <= k < |s| && k <= |f| ==> s[k] >= f[k - 1] + BackoffMs(k))
      && |s| <= |f| + 1
  }

  /** A call under way is its running job's latest. */
  predicate CallOk(q: Queue, c: Invocation) {
    c in q.live ==>
      && c.id in q.jobs && c.id in q.starts && q.jobs[c.id].status == Running
      && c.nth + 1 == |q.starts[c.id]| && c.job == q.jobs[c.id].(status := Pending, attempts := c.nth)
  }

  ghost predicate Inv(q: Queue) {
    && (forall id :: JobOk(q, id))
    && (forall c :: CallOk(q, c))
  }

  lemma JobPolled(q: Queue, e: Event, id: JobId)
    requires e.Poll? && JobOk(q, id)
    ensures JobOk(Next(q, e), id)
  {
    hide BackoffMs;
  }

  lemma JobFinished(q: Queue, e: Event, id: JobId)
    requires e.Finish? && Enabled(q, e) && JobOk(q, id) && CallOk(q, e.call)
    ensures JobOk(Next(q, e), id)
  {
    hide BackoffMs;
  }

  lemma JobStep(q: Queue, e: Event, id: JobId)
    requires Inv(q) && Enabled(q, e)
    ensures JobOk(Next(q, e), id)
  {
    hide BackoffMs, Polled, Ended, CallOk;
    assert JobOk(q, id);
    match e
    case Poll(_) => JobPolled(q, e, id);
    case Finish(_, _, _) => JobFinished(q, e, id);
    case _ =>
  }

  lemma CallStep(q: Queue, e: Event, c: Invocation)
    requires Inv(q) && Enabled(q, e)
    ensures CallOk(Next(q, e), c)
  {
    assert CallOk(q, c) && JobOk(q, c.id);
    if e.Finish? {
      assert CallOk(q, e.call);
    }
  }

  lemma InvStep(q: Queue, e: Event)
    requires Inv(q) && Enabled(q, e)
    ensures Inv(Next(q, e))
  {
    forall id ensures JobOk(Next(q, e), id) { JobStep(q, e, id); }
    forall c ensures CallOk(Next(q, e), c) { CallStep(q, e, c); }
  }

  lemma {:induction false} InvAt(run: seq<Event>, k: nat, q: Queue)
    requires k <= |run| && Reaches(run, k, q)
    ensures Inv(q)
  {
    hide Enabled, Next;
    if k > 0 {
      var before := QueueAt(run, k - 1).value;
      InvAt(run, k - 1, before);
      InvStep(before, run[k - 1]);
    }
  }

  /** A job never overlaps itself. */
  lemma NeverOverlaps(run: seq<Event>, k: nat, q: Queue, c: Invocation, d: Invocation)
    requires k <= |run| && Reaches(run, k, q) && c in q.live && d in q.live && c.id == d.id
    ensures c == d && c.id in q.jobs && q.jobs[c.id].status == Running
  {
    InvAt(run, k, q);
    assert CallOk(q, c) && CallOk(q, d);
  }

  /** attempts counts the handler's calls, of which there are never more than max(1, maxRetries), and a
      retry after the nth failure starts no sooner than its backoff after that failure. */
  lemma AttemptsAndBackoff(run: seq<Event>, k: nat, q: Queue, id: JobId)
    requires k <= |run| && Reaches(run, k, q) && id in q.jobs
    ensures id in q.starts && id in q.failures
    ensures q.jobs[id].attempts == |q.starts[id]| <= Limit(q.jobs[id])
    ensures |q.failures[id]| <= |q.starts[id]| <= |q.failures[id]| + 1
    ensures forall n :: 1 <= n < |q.starts[id]| ==>
              q.starts[id][n] >= q.failures[id][n - 1] + Min(1_000 * Power2(n), 60_000)
    ensures var (n, f) := (|q.failures[id]|, q.failures[id]);
            q.jobs[id].status == Pending && n > 0 ==> q.jobs[id].runAt == f[n - 1] + Min(1_000 * Power2(n), 60_000)
  {
    InvAt(run, k, q);
    assert JobOk(q, id);
  }

  /** A job is completed only after a call that did not fail, and dead only after every one of
      max(1, maxRetries) calls failed or without any call, for want of a handler. */
  lemma OutcomeIsEarned(run: seq<Event>, k: nat, q: Queue, id: JobId)
    requires k <= |run| && Reaches(run, k, q) && id in q.jobs
    ensures id in q.starts && id in q.failures && q.jobs[id].status != Failed
    ensures q.jobs[id].status == Completed ==> |q.starts[id]| == |q.failures[id]| + 1
    ensures q.jobs[id].status == Dead ==>
              |q.starts[id]| == |q.failures[id]| && (|q.starts[id]| == 0 || |q.starts[id]| == Limit(q.jobs[id]))
    ensures q.jobs[id].status == Pending ==> |q.starts[id]| == |q.failures[id]| < Limit(q.jobs[id])
  {
    InvAt(run, k, q);
    assert JobOk(q, id);
  }

  /** A poll calls the handler of exactly the pending jobs whose time has come and that have one. */
  lemma PollStartsExactly(q: Queue, now: nat, id: JobId)
    requires id in q.jobs && id in q.starts
    ensures var (j, q') := (q.jobs[id], Next(q, Poll(now)));
            id in q'.starts
            && q'.starts[id] == if j.status == Pending && j.runAt <= now && j.kind in q.handlers then q.starts[id] + [now]
                                else q.starts[id]
  {
  }

  /** What the submission of a job promises: its type and its limit, three tries by default, and no start
      before its delay is over. */
  predicate Promised(q: Queue, id: JobId, kind: string, maxRetries: int, due: int) {
    && id in q.jobs && id in q.starts
    && q.jobs[id].kind == kind && q.jobs[id].maxRetries == maxRetries
    && (q.starts[id] == [] ==> q.jobs[id].runAt == due)
    && (q.starts[id] != [] ==> q.starts[id][0] >= due)
  }

  lemma PromiseStep(q: Queue, e: Event, id: JobId, kind: string, maxRetries: int, due: int)
    requires Inv(q) && Enabled(q, e) && Promised(q, id, kind, maxRetries, due)
    ensures Promised(Next(q, e), id, kind, maxRetries, due)
  {
    assert JobOk(q, id);
    if e.Finish? {
      assert CallOk(q, e.call);
    }
    hide BackoffMs, JobOk, CallOk;
  }

  /** A job submitted with n tries, or without a number, is run with n or 3 at most, for the first time no
      sooner than its delay after the submission, and is due exactly then. */
  lemma {:induction false} SubmissionIsKept(run: seq<Event>, i: nat, k: nat, q: Queue)
    requires i < k <= |run| && run[i].Submit? && Reaches(run, k, q)
    ensures var e := run[i];
            Promised(q, e.id, e.kind, if e.maxRetries.Some? then e.maxRetries.value else 3,
                     e.now + if e.delayMs.Some? then e.delayMs.value else 0)
    decreases k
  {
    hide Enabled, Next, Promised;
    var before := QueueAt(run, k - 1).value;
    if k == i + 1 {
      SubmitPromises(before, run[i]);
    } else {
      SubmissionIsKept(run, i, k - 1, before);
      InvAt(run, k - 1, before);
      var e := run[i];
      PromiseStep(before, run[k - 1], e.id, e.kind, if e.maxRetries.Some? then e.maxRetries.value else 3,
                  e.now + if e.delayMs.Some? then e.delayMs.value else 0);
    }
  }

  lemma SubmitPromises(q: Queue, e: Event)
    requires e.Submit? && Enabled(q, e)
    ensures Promised(Next(q, e), e.id, e.kind, if e.maxRetries.Some? then e.maxRetries.value else 3,
                     e.now + if e.delayMs.Some? then e.delayMs.value else 0)
    ensures Next(q, e).jobs[e.id].status == Pending && Next(q, e).jobs[e.id].attempts == 0
  {
  }

  // ---- Progress and finality ----

  /** What is left for a job: it bounds the starts and completions still to come. */
  function Fuel(j: Job): int {
    match j.status
    case Pending => 2 * (Limit(j) - j.attempts) + 1
    case Running => 2 * (Limit(j) - j.attempts) + 2
    case _ => 0
  }

  /** No event gives a job more to do; each one that touches the job leaves it less, and the end of a
      job is final. */
  lemma FuelStep(run: seq<Event>, k: nat, q: Queue, e: Event, id: JobId)
    requires k <= |run| && Reaches(run, k, q) && Enabled(q, e) && id in q.jobs
    ensures id in Next(q, e).jobs
    ensures var (j, j') := (q.jobs[id], Next(q, e).jobs[id]);
            0 <= Fuel(j') && (j' == j || Fuel(j') < Fuel(j))
  {
    InvAt(run, k, q);
    InvStep(q, e);
    assert JobOk(q, id) && JobOk(Next(q, e), id);
    if e.Finish? {
      assert CallOk(q, e.call);
    }
  }

  /** How many of the events from i up to k change the job. */
  function Changes(run: seq<Event>, i: nat, k: nat, id: JobId): nat
    requires i <= k <= |run|
    decreases k
  {
    if i == k then 0 else
      var (q, q') := (QueueAt(run, k - 1), QueueAt(run, k));
      Changes(run, i, k - 1, id)
      + if q.Some? && q'.Some? && id in q.value.jobs && id in q'.value.jobs && q.value.jobs[id] != q'.value.jobs[id]
        then 1 else 0
  }

  /** However a run goes on, a job changes no more often than its fuel says. */
  lemma {:induction false} ChangesAreBounded(run: seq<Event>, i: nat, k: nat, q: Queue, q': Queue, id: JobId)
    requires i <= k <= |run| && Reaches(run, i, q) && Reaches(run, k, q') && id in q.jobs
    ensures id in q'.jobs && 0 <= Fuel(q'.jobs[id]) && Changes(run, i, k, id) + Fuel(q'.jobs[id]) <= Fuel(q.jobs[id])
    decreases k
  {
    hide Enabled, Next, Fuel;
    if i < k {
      var before := QueueAt(run, k - 1).value;
      ChangesAreBounded(run, i, k - 1, q, before, id);
      FuelStep(run, k - 1, before, run[k - 1], id);
    } else {
      FuelIsNatural(run, k, q, id);
    }
  }

  lemma FuelIsNatural(run: seq<Event>, k: nat, q: Queue, id: JobId)
    requires k <= |run| && Reaches(run, k, q) && id in q.jobs
    ensures 0 <= Fuel(q.jobs[id])
  {
    InvAt(run, k, q);
    assert JobOk(q, id);
  }

  /** And a job that has not come to its end can always go on: any poll at or after its time changes a
      pending job, and a running one has its handler call under way, whose end changes it. */
  lemma NeverStuck(run: seq<Event>, k: nat, q: Queue, id: JobId)
    requires k <= |run| && Reaches(run, k, q) && id in q.jobs
    ensures var j := q.jobs[id];
            || j.status == Completed || j.status == Dead
            || (j.status == Pending && forall now: nat :: now >= j.runAt ==> Next(q, Poll(now)).jobs[id] != j)
            || (j.status == Running && forall ok, now ::
                  Enabled(q, Finish(LatestCall(id, j), ok, now)) && Next(q, Finish(LatestCall(id, j), ok, now)).jobs[id] != j)
  {
    InvAt(run, k, q);
    assert JobOk(q, id);
  }

  /** COMPLETED and DEAD are absorbing: the job's record never changes again. */
  lemma {:induction false} EndIsFinal(run: seq<Event>, i: nat, k: nat, q: Queue, q': Queue, id: JobId)
    requires i <= k <= |run| && Reaches(run, i, q) && Reaches(run, k, q')
    requires id in q.jobs && (q.jobs[id].status == Completed || q.jobs[id].status == Dead)
    ensures id in q'.jobs && q'.jobs[id] == q.jobs[id]
  {
    hide Enabled, Next;
    if i < k {
      var before := QueueAt(run, k - 1).value;
      EndIsFinal(run, i, k - 1, q, before, id);
      FuelStep(run, k - 1, before, run[k - 1], id);
    }
  }
}
