/** The certificate job queue: callers enqueue, and one worker at a time is started on demand,
    drains the queue and exits.  Every lock-protected section is one atomic step; the steps of
    callers and workers interleave freely. */
module AcmeQueue {
  import opened Outcomes

  /** `callback` identifies the completion callback a caller handed over, if any. */
  datatype Job = Job(domain: string, challenge: string, force: bool, callback: Option<nat>)

  /** The two fields the mutex protects. */
  datatype Shared = Shared(queue: seq<Job>, workerBusy: bool)

  predicate Queued(queue: seq<Job>, domain: string) {
    exists i :: 0 <= i < |queue| && queue[i].domain == domain
  }

  /** Adds the job unless its domain waits already; a worker is started when none is busy. */
  function Submit(s: Shared, j: Job): Shared {
    if Queued(s.queue, j.domain) then s else Shared(s.queue + [j], true)
  }

  /** The worker's locked section: take the head, or sign off when there is none. */
  function Take(s: Shared): Shared {
    if s.queue == [] then s.(workerBusy := false) else s.(queue := s.queue[1..])
  }

  class AcmeService {
    var queue: seq<Job>
    var workerBusy: bool

    function View(): Shared
      reads this
    {
      Shared(queue, workerBusy)
    }

    constructor ()
      ensures View() == Shared([], false)
    {
      queue, workerBusy := [], false;
    }

    /** `spawn` reports that a worker goroutine was started. */
    method Enqueue(j: Job) returns (spawn: bool)
      modifies this
      ensures View() == Submit(old(View()), j)
      ensures spawn <==> workerBusy && !old(workerBusy)
    {
      spawn := false;
      for i := 0 to |queue|
        invariant forall k :: 0 <= k < i ==> queue[k].domain != j.domain
      {
        if queue[i].domain == j.domain {
          return;
        }
      }
      queue := queue + [j];
      if !workerBusy {
        workerBusy := true;
        spawn := true;
      }
    }

    method TakeJob() returns (next: Option<Job>)
      modifies this
      ensures View() == Take(old(View()))
      ensures next == if old(queue) == [] then None else Some(old(queue)[0])
    {
      if |queue| == 0 {
        workerBusy := false;
        return None;
      }
      next := Some(queue[0]);
      queue := queue[1..];
    }
  }

  // ----- the interleaved machine -----

  /** Where a worker goroutine stands: before the lock, busy issuing, or about to report. */
  datatype Worker = AtLock | Issuing(job: Job) | Reporting(job: Job, failed: bool)

  datatype Finished = Finished(job: Job, failed: bool)

  /** One invocation of a completion callback. */
  datatype Notice = Notice(callback: nat, domain: string, failed: bool)

  /** `accepted`, `finished` and `notices` are histories; `started` counts worker goroutines. */
  datatype State = State(
    shared: Shared, workers: map<nat, Worker>, started: nat,
    accepted: seq<Job>, finished: seq<Finished>, notices: seq<Notice>)

  const INITIAL := State(Shared([], false), map[], 0, [], [], [])

  datatype Event = Enqueue(job: Job) | Lock(worker: nat) | Issue(worker: nat, failed: bool) | Report(worker: nat)

  predicate Enabled(s: State, e: Event) {
    match e
    case Enqueue(_) => true
    case Lock(w) => w in s.workers && s.workers[w].AtLock?
    case Issue(w, _) => w in s.workers && s.workers[w].Issuing?
    case Report(w) => w in s.workers && s.workers[w].Reporting?
  }

  function Step(s: State, e: Event): State
    requires Enabled(s, e)
  {
    match e
    case Enqueue(j) =>
      var shared := Submit(s.shared, j);
      var started := s.(accepted := if shared.queue == s.shared.queue then s.accepted else s.accepted + [j]);
      if shared.workerBusy && !s.shared.workerBusy
      then started.(shared := shared, workers := s.workers[s.started := AtLock], started := s.started + 1)
      else started.(shared := shared)
    case Lock(w) =>
      if s.shared.queue == []
      then s.(shared := Take(s.shared), workers := s.workers - {w})
      else s.(shared := Take(s.shared), workers := s.workers[w := Issuing(s.shared.queue[0])])
    case Issue(w, failed) =>
      s.(workers := s.workers[w := Reporting(s.workers[w].job, failed)])
    case Report(w) =>
      var d := Finished(s.workers[w].job, s.workers[w].failed);
      s.(workers := s.workers[w := AtLock], finished := s.finished + [d], notices := s.notices + NoticeOf(d))
  }

  function NoticeOf(d: Finished): seq<Notice> {
    match d.job.callback
    case None => []
    case Some(c) => [Notice(c, d.job.domain, d.failed)]
  }

  /** The callbacks a history of finished jobs calls for, in order. */
  function NoticesOf(done: seq<Finished>): seq<Notice> {
    if done == [] then [] else NoticesOf(done[..|done| - 1]) + NoticeOf(done[|done| - 1])
  }

  function Jobs(done: seq<Finished>): (js: seq<Job>)
    ensures |js| == |done| && forall i :: 0 <= i < |js| ==> js[i] == done[i].job
  {
    seq(|done|, i requires 0 <= i < |done| => done[i].job)
  }

  /** Whether the interleaving takes only steps enabled at their turn. */
  predicate Allowed(s: State, run: seq<Event>)
    decreases |run|
  {
    run == [] || (Enabled(s, run[0]) && Allowed(Step(s, run[0]), run[1..]))
  }

  function After(s: State, run: seq<Event>): State
    requires Allowed(s, run)
    decreases |run|
  {
    if run == [] then s else After(Step(s, run[0]), run[1..])
  }

  /** The job a worker has taken and not yet reported. */
  function Held(w: Worker): seq<Job> {
    if w.AtLock? then [] else [w.job]
  }

  predicate Distinct(queue: seq<Job>) {
    forall i, j :: 0 <= i < j < |queue| ==> queue[i].domain != queue[j].domain
  }

  /** What every step keeps. */
  ghost predicate Inv(s: State) {
    && Distinct(s.shared.queue)
    && s.notices == NoticesOf(s.finished)
    && if s.shared.workerBusy
       then s.started > 0 && s.workers.Keys == {s.started - 1}
            && s.accepted == Jobs(s.finished) + Held(s.workers[s.started - 1]) + s.shared.queue
       else s.workers == map[] && s.shared.queue == [] && s.accepted == Jobs(s.finished)
  }

  lemma EnqueueKeepsInv(s: State, j: Job)
    requires Inv(s)
    ensures Inv(Step(s, Enqueue(j)))
  {
    var t := Step(s, Enqueue(j));
    if t.shared.queue != s.shared.queue {
      assert t.shared.queue == s.shared.queue + [j];
      if s.shared.workerBusy {
        assert t.workers == s.workers;
      } else {
        assert t.workers == map[s.started := AtLock];
      }
    }
  }

  lemma LockKeepsInv(s: State, w: nat)
    requires Inv(s) && Enabled(s, Lock(w))
    ensures Inv(Step(s, Lock(w)))
  {
    var queue := s.shared.queue;
    if queue != [] {
      assert queue == [queue[0]] + queue[1..];
      assert s.accepted == Jobs(s.finished) + [queue[0]] + queue[1..];
      assert s.workers[w := Issuing(queue[0])].Keys == s.workers.Keys;
    } else {
      assert s.workers - {w} == map[];
    }
  }

  lemma IssueKeepsInv(s: State, w: nat, failed: bool)
    requires Inv(s) && Enabled(s, Issue(w, failed))
    ensures Inv(Step(s, Issue(w, failed)))
  {
    assert Step(s, Issue(w, failed)).workers.Keys == s.workers.Keys;
  }

  lemma AppendFinished(done: seq<Finished>, d: Finished)
    ensures Jobs(done + [d]) == Jobs(done) + [d.job]
    ensures NoticesOf(done + [d]) == NoticesOf(done) + NoticeOf(d)
  {
    assert (done + [d])[..|done|] == done;
  }

  lemma ReportKeepsInv(s: State, w: nat)
    requires Inv(s) && Enabled(s, Report(w))
    ensures Inv(Step(s, Report(w)))
  {
    AppendFinished(s.finished, Finished(s.workers[w].job, s.workers[w].failed));
    assert s.workers[w := AtLock].Keys == s.workers.Keys;
  }

  lemma StepKeepsInv(s: State, e: Event)
    requires Inv(s) && Enabled(s, e)
    ensures Inv(Step(s, e))
  {
    match e
    case Enqueue(j) => EnqueueKeepsInv(s, j);
    case Lock(w) => LockKeepsInv(s, w);
    case Issue(w, failed) => IssueKeepsInv(s, w, failed);
    case Report(w) => ReportKeepsInv(s, w);
  }

  lemma {:induction false} RunKeepsInv(s: State, run: seq<Event>)
    requires Inv(s) && Allowed(s, run)
    ensures Inv(After(s, run))
    decreases |run|
  {
    if run != [] {
      StepKeepsInv(s, run[0]);
      RunKeepsInv(Step(s, run[0]), run[1..]);
    }
  }

  predicate IsPrefix<T(==)>(a: seq<T>, b: seq<T>) {
    |a| <= |b| && a == b[..|a|]
  }

  /** Under every interleaving: at most one worker lives, exactly while `workerBusy` holds; a
      waiting job always has a worker; waiting domains are distinct; jobs finish in the order
      they were accepted, with at most one between taken and reported; and each finished job
      has fired its callback once, with its own outcome. */
  lemma QueueIsSafe(run: seq<Event>)
    requires Allowed(INITIAL, run)
    ensures var s := After(INITIAL, run);
            && |s.workers| <= 1
            && (s.shared.workerBusy <==> |s.workers| == 1)
            && (s.shared.queue != [] ==> |s.workers| == 1)
            && Distinct(s.shared.queue)
            && IsPrefix(Jobs(s.finished), s.accepted)
            && |s.accepted| - |s.shared.queue| - |s.finished| in {0, 1}
            && s.shared.queue == s.accepted[|s.accepted| - |s.shared.queue|..]
            && s.notices == NoticesOf(s.finished)
            && (s.workers == map[] ==> s.accepted == Jobs(s.finished))
  {
    RunKeepsInv(INITIAL, run);
    InvIsSafe(After(INITIAL, run));
  }

  lemma InvIsSafe(s: State)
    requires Inv(s)
    ensures |s.workers| <= 1
    ensures s.shared.workerBusy <==> |s.workers| == 1
    ensures s.shared.queue != [] ==> |s.workers| == 1
    ensures IsPrefix(Jobs(s.finished), s.accepted)
    ensures |s.accepted| - |s.shared.queue| - |s.finished| in {0, 1}
    ensures s.shared.queue == s.accepted[|s.accepted| - |s.shared.queue|..]
    ensures s.workers == map[] ==> s.accepted == Jobs(s.finished)
  {
    if s.shared.workerBusy {
      assert |s.workers.Keys| == 1;
    }
  }

  // ----- progress -----

  function Stage(w: Worker): nat {
    match w
    case AtLock => 1
    case Reporting(_, _) => 2
    case Issuing(_) => 3
  }

  /** The number of worker steps that remain until the worker exits. */
  function Remaining(s: State): nat {
    if s.started > 0 && s.started - 1 in s.workers
    then 3 * |s.shared.queue| + Stage(s.workers[s.started - 1])
    else 0
  }

  /** Every worker step, whatever its outcome, brings the end exactly one step nearer. */
  lemma WorkerMakesProgress(s: State, e: Event)
    requires Inv(s)
    ensures Enabled(s, e) && !e.Enqueue? ==> Remaining(Step(s, e)) == Remaining(s) - 1
    ensures Enabled(s, e) && !e.Enqueue? ==> Step(s, e).accepted == s.accepted
  {
  }

  lemma SomeWorkerStep(s: State)
    requires Inv(s)
    ensures Remaining(s) == 0 ==> s.workers == map[] && Jobs(s.finished) == s.accepted
    ensures Remaining(s) > 0 ==> exists e: Event :: !e.Enqueue? && Enabled(s, e)
  {
    var w := s.started - 1;
    if Remaining(s) > 0 {
      assert Enabled(s, Lock(w)) || Enabled(s, Report(w)) || Enabled(s, Issue(w, false));
    }
  }

  lemma {:induction false} WorkerCountsDown(s: State, rest: seq<Event>)
    requires Inv(s) && Allowed(s, rest)
    requires forall i :: 0 <= i < |rest| ==> !rest[i].Enqueue?
    ensures Remaining(After(s, rest)) == Remaining(s) - |rest|
    ensures After(s, rest).accepted == s.accepted
    decreases |rest|
  {
    if rest != [] {
      StepKeepsInv(s, rest[0]);
      WorkerMakesProgress(s, rest[0]);
      WorkerCountsDown(Step(s, rest[0]), rest[1..]);
    }
  }

  /** Nothing gets stuck or is forgotten: from any reachable state, with no new submissions,
      worker steps can go on exactly as long as some work remains, every schedule of them takes
      the same number of steps, and then each job ever accepted has finished in order. */
  lemma QueueDrains(run: seq<Event>, rest: seq<Event>)
    requires Allowed(INITIAL, run) && Allowed(After(INITIAL, run), rest)
    requires forall i :: 0 <= i < |rest| ==> !rest[i].Enqueue?
    ensures var s, t := After(INITIAL, run), After(After(INITIAL, run), rest);
            && |rest| <= Remaining(s)
            && (|rest| < Remaining(s) ==> exists e: Event :: !e.Enqueue? && Enabled(t, e))
            && (|rest| == Remaining(s) ==> t.workers == map[] && Jobs(t.finished) == s.accepted)
  {
    var s, t := After(INITIAL, run), After(After(INITIAL, run), rest);
    RunKeepsInv(INITIAL, run);
    RunKeepsInv(s, rest);
    WorkerCountsDown(s, rest);
    SomeWorkerStep(t);
  }

  /** What issuing came to is what is reported of the job. */
  lemma OutcomeIsReported(s: State, w: nat, failed: bool)
    requires Enabled(s, Issue(w, failed))
    ensures var t := Step(s, Issue(w, failed));
            && Enabled(t, Report(w))
            && Step(t, Report(w)).finished == s.finished + [Finished(s.workers[w].job, failed)]
            && Step(t, Report(w)).shared == s.shared
  {
  }

  // ----- nothing is turned away but a duplicate -----

  /** A submission leaves a job for its domain waiting, and is itself accepted, at the end of the
      queue and of the history, exactly when none for that domain was waiting before. */
  lemma SubmissionIsTaken(s: State, j: Job)
    ensures var t := Step(s, Enqueue(j));
            && Queued(t.shared.queue, j.domain)
            && (if exists i :: 0 <= i < |s.shared.queue| && s.shared.queue[i].domain == j.domain
                then t.accepted == s.accepted && t.shared == s.shared
                else t.accepted == s.accepted + [j] && t.shared.queue == s.shared.queue + [j] && t.shared.workerBusy)
  {
    var t := Step(s, Enqueue(j));
    if !Queued(s.shared.queue, j.domain) {
      assert t.shared.queue[|s.shared.queue|].domain == j.domain;
      assert |t.shared.queue| != |s.shared.queue|;
    }
  }

  lemma {:induction false} AfterSplit(s: State, run: seq<Event>, more: seq<Event>)
    requires Allowed(s, run + more)
    ensures Allowed(s, run) && Allowed(After(s, run), more) && After(s, run + more) == After(After(s, run), more)
    decreases |run|
  {
    if run == [] {
      assert run + more == more;
    } else {
      assert (run + more)[0] == run[0] && (run + more)[1..] == run[1..] + more;
      AfterSplit(Step(s, run[0]), run[1..], more);
    }
  }

  lemma {:induction false} AcceptedStays(s: State, run: seq<Event>)
    requires Allowed(s, run)
    ensures IsPrefix(s.accepted, After(s, run).accepted)
    decreases |run|
  {
    if run != [] {
      AcceptedStays(Step(s, run[0]), run[1..]);
    }
  }

  /** Every submission whose domain was not waiting is in the history of any later state, at the
      place after those accepted before it. */
  lemma EverySubmissionIsAccepted(run: seq<Event>, j: Job, more: seq<Event>)
    requires Allowed(INITIAL, run + [Enqueue(j)] + more) && Allowed(INITIAL, run)
    requires !Queued(After(INITIAL, run).shared.queue, j.domain)
    ensures var n := |After(INITIAL, run).accepted|;
            var later := After(INITIAL, run + [Enqueue(j)] + more).accepted;
            n < |later| && later[n] == j
  {
    var s := After(INITIAL, run);
    assert run + [Enqueue(j)] + more == run + ([Enqueue(j)] + more);
    AfterSplit(INITIAL, run, [Enqueue(j)] + more);
    assert ([Enqueue(j)] + more)[1..] == more;
    SubmissionIsTaken(s, j);
    AcceptedStays(Step(s, Enqueue(j)), more);
  }

  /** So once the queue has drained, the job has finished and, if it has a callback, that has
      been called with the job's own outcome. */
  lemma SubmissionIsFinished(run: seq<Event>, j: Job, more: seq<Event>) returns (d: Finished)
    requires Allowed(INITIAL, run + [Enqueue(j)] + more) && Allowed(INITIAL, run)
    requires !Queued(After(INITIAL, run).shared.queue, j.domain)
    requires After(INITIAL, run + [Enqueue(j)] + more).workers == map[]
    ensures var t := After(INITIAL, run + [Enqueue(j)] + more);
            && d in t.finished && d.job == j
            && (j.callback.Some? ==> Notice(j.callback.value, j.domain, d.failed) in t.notices)
  {
    var n, t := |After(INITIAL, run).accepted|, After(INITIAL, run + [Enqueue(j)] + more);
    EverySubmissionIsAccepted(run, j, more);
    RunKeepsInv(INITIAL, run + [Enqueue(j)] + more);
    InvIsSafe(t);
    d := t.finished[n];
    assert Jobs(t.finished)[n] == j;
    NoticeIsThere(t.finished, n);
  }

  lemma {:induction false} NoticeIsThere(done: seq<Finished>, n: nat)
    requires n < |done|
    ensures forall x <- NoticeOf(done[n]) :: x in NoticesOf(done)
  {
    if n < |done| - 1 {
      NoticeIsThere(done[..|done| - 1], n);
    }
  }
}
