/** The worker pool (internal/jobs/worker.go): several workers, a bounded wake
    channel, pause and resume, over the job queue. The class `Pool` has the
    operations a caller makes; the state machine below interleaves every
    shared step of every worker and caller, in any order, with crashes and
    restarts. */
module WorkerPool {
  import opened JobQueue

  /** A non-blocking send on a channel with room for `capacity` signals. */
  function Sent(wake: nat, capacity: nat): nat { if wake < capacity then wake + 1 else wake }

  /** How a job's handler, or its bookkeeping, ended. `Unknown` is a job no
      handler is registered for; `Unrecorded` an outcome the database refused. */
  datatype Outcome = Succeeded | Erred | Unknown | Unrecorded

  /** The table after a worker is through with job `j`. */
  function Recorded(rows: Rows, j: Job, now: int, o: Outcome): Rows {
    match o
    case Succeeded => Completed(rows, j.id)
    case Erred => FailedWith(rows, j, now)
    case Unknown => FailedWith(rows, j.(attempts := j.maxAttempts), now)
    case Unrecorded => rows
  }

  class Pool {
    const queue: Queue
    const workers: nat
    var paused: bool
    var wake: nat

    /** A pool always has a worker, and room for one signal per worker. */
    constructor (queue: Queue, workers: int)
      ensures this.queue == queue && this.workers >= 1 && (workers >= 1 ==> this.workers == workers)
      ensures !paused && wake == 0
    {
      this.queue := queue;
      this.workers := if workers < 1 then 1 else workers;
      paused, wake := false, 0;
    }

    method Notify()
      modifies this`wake
      ensures wake == Sent(old(wake), workers)
      ensures workers >= 1 ==> wake > 0
    {
      if wake < workers {
        wake := wake + 1;
      }
    }

    method Pause()
      modifies this`paused
      ensures paused
    {
      paused := true;
    }

    /** Every worker can be woken by the signals a Resume leaves. */
    method Resume()
      requires wake <= workers
      modifies this
      ensures !paused && wake == workers
    {
      paused := false;
      for i := 0 to workers
        invariant i <= wake <= workers && !paused
      {
        Notify();
      }
    }

    /** What a worker does with a job it claimed. */
    method Run(j: Job, known: bool, ok: bool, now: int)
      modifies queue
      ensures queue.rows ==
              Recorded(old(queue.rows), j, now, if !known then Unknown else if ok then Succeeded else Erred)
    {
      if !known {
        queue.Fail(j.(attempts := j.maxAttempts), now);
        return;
      }
      if !ok {
        queue.Fail(j, now);
        return;
      }
      queue.Complete(j.id);
    }
  }

  // ---------------------------------------------------- the state machine

  /** Where a worker is: at the top of its loop, past a check that found the
      pool unpaused, at the select that waits for a signal, running a job, or
      returned. */
  datatype Worker = Top | Unpaused | AtSelect | Holding(job: Job) | Gone

  /** `resumes` is the sends left to each Resume that has stored the flag and
      not returned. History: `covered` is the ready jobs for which, while the
      pool was not paused, a Notify has returned or a Resume has sent a signal,
      unless a pause or a failed claim has come since; `claims` is how
      many jobs were claimed since the pool was last paused; `resets` is how
      often each job was requeued by a restart. */
  datatype World = World(
    rows: Rows, now: int, workers: seq<Worker>, paused: bool, wake: nat, resumes: map<nat, nat>,
    stopping: bool, covered: set<int>, claims: nat, resets: map<int, nat>)

  datatype Event =
    | Tick(to: int)
    | Insert(id: int, kind: string, payload: string, at: int)
    | Delete(doomed: (string, string) -> bool)
    | Notify
    | Pause
    | ResumeStore(call: nat)
    | ResumeSend(call: nat)
    | ReadFlag(w: nat)
    | Claim(w: nat, id: int)
    | ClaimNone(w: nat)
    | ClaimError(w: nat)
    | Wake(w: nat)
    | Timeout(w: nat)
    | Finish(w: nat, outcome: Outcome)
    | Stop
    | Return(w: nat)
    | Restart(reset: bool)

  function Boot(n: nat): World {
    World(map[], 0, seq(n, i => Top), false, 0, map[], false, {}, 0, map[])
  }

  predicate At(w: World, i: nat, p: Worker) { i < |w.workers| && w.workers[i] == p }

  predicate Allowed(w: World, e: Event) {
    match e
    case Tick(to) => to >= w.now
    case Insert(id, _, _, _) => id !in w.rows
    case Delete(_) => true
    case Notify => true
    case Pause => true
    case ResumeStore(c) => c !in w.resumes
    case ResumeSend(c) => c in w.resumes
    case ReadFlag(i) => At(w, i, Top) && !w.stopping
    case Claim(i, id) => At(w, i, Unpaused) && IsNext(w.rows, w.now, id)
    case ClaimNone(i) => At(w, i, Unpaused) && ReadyIds(w.rows, w.now) == {}
    case ClaimError(i) => At(w, i, Unpaused)
    case Wake(i) => At(w, i, AtSelect) && w.wake > 0
    case Timeout(i) => At(w, i, AtSelect)
    case Finish(i, _) => i < |w.workers| && w.workers[i].Holding?
    case Stop => true
    case Return(i) => w.stopping && (At(w, i, Top) || At(w, i, AtSelect))
    case Restart(_) => true
  }

  function Next(w: World, e: Event): World
    requires Allowed(w, e)
  {
    match e
    case Tick(to) => w.(now := to)
    case Insert(id, kind, payload, at) =>
      w.(rows := Enqueued(w.rows, id, kind, payload, at), resets := w.resets[id := 0])
    case Delete(doomed) =>
      var rows := WithoutPending(w.rows, doomed);
      w.(rows := rows, covered := w.covered * rows.Keys)
    case Notify => w.(wake := Sent(w.wake, |w.workers|), covered := if w.paused then {} else ReadyIds(w.rows, w.now))
    case Pause => w.(paused := true, claims := if w.paused then w.claims else 0, covered := {})
    case ResumeStore(c) => w.(paused := false, resumes := w.resumes[c := |w.workers|])
    case ResumeSend(c) =>
      w.(wake := Sent(w.wake, |w.workers|), covered := if w.paused then {} else ReadyIds(w.rows, w.now),
         resumes := if w.resumes[c] <= 1 then w.resumes - {c} else w.resumes[c := w.resumes[c] - 1])
    case ReadFlag(i) => w.(workers := w.workers[i := if w.paused then AtSelect else Unpaused])
    case Claim(i, id) =>
      var rows := Claimed(w.rows, id);
      w.(rows := rows, workers := w.workers[i := Holding(JobOf(rows, id))],
         covered := w.covered - {id}, claims := w.claims + 1)
    case ClaimNone(i) => w.(workers := w.workers[i := AtSelect])
    case ClaimError(i) => w.(workers := w.workers[i := AtSelect], covered := {})
    case Wake(i) => w.(workers := w.workers[i := Top], wake := w.wake - 1)
    case Timeout(i) => w.(workers := w.workers[i := Top])
    case Finish(i, o) =>
      w.(rows := Recorded(w.rows, w.workers[i].job, w.now, o), workers := w.workers[i := Top])
    case Stop => w.(stopping := true)
    case Return(i) => w.(workers := w.workers[i := Gone])
    case Restart(reset) =>
      World(if reset then Reset(w.rows) else w.rows, w.now, seq(|w.workers|, i => Top), false, 0, map[],
            false, {}, 0,
            if reset then map id | id in w.resets ::
              w.resets[id] + (if id in w.rows && w.rows[id].state == Running then 1 else 0)
            else w.resets)
  }

  predicate ValidRun(w: World, es: seq<Event>)
    decreases |es|
  {
    es == [] || (Allowed(w, es[0]) && ValidRun(Next(w, es[0]), es[1..]))
  }

  function After(w: World, es: seq<Event>): World
    requires ValidRun(w, es)
    decreases |es|
  {
    if es == [] then w else After(Next(w, es[0]), es[1..])
  }

  /** How many workers found the pool unpaused and have yet to claim. */
  function Checked(ws: seq<Worker>): nat {
    if ws == [] then 0 else (if ws[0] == Unpaused then 1 else 0) + Checked(ws[1..])
  }

  predicate Busy(p: Worker) { p != AtSelect && p != Gone }

  ghost predicate SomeoneAwake(w: World) {
    w.wake > 0 || exists i :: 0 <= i < |w.workers| && Busy(w.workers[i])
  }

  /** Each running job has at most one worker, who holds it as the row says. */
  ghost predicate HoldersAgree(w: World) {
    && (forall i :: 0 <= i < |w.workers| && w.workers[i].Holding? ==>
          var j := w.workers[i].job;
          && j.id in w.rows && w.rows[j.id].state == Running
          && w.rows[j.id].attempts == j.attempts && w.rows[j.id].maxAttempts == j.maxAttempts)
    && (forall i, k :: 0 <= i < k < |w.workers| && w.workers[i].Holding? && w.workers[k].Holding? ==>
          w.workers[i].job.id != w.workers[k].job.id)
  }

  ghost predicate AttemptsBounded(w: World) {
    && w.rows.Keys <= w.resets.Keys
    && (forall id :: id in w.rows ==>
          && w.rows[id].attempts <= w.rows[id].maxAttempts + w.resets[id]
          && (w.rows[id].state == Pending ==> w.rows[id].attempts < w.rows[id].maxAttempts + w.resets[id]))
  }

  ghost predicate NoWakeLost(w: World) {
    && w.covered <= ReadyIds(w.rows, w.now)
    && (w.paused ==> w.covered == {})
    && (!w.stopping && w.covered != {} ==> SomeoneAwake(w))
  }

  ghost predicate Inv(w: World) {
    && |w.workers| >= 1 && w.wake <= |w.workers|
    && (forall i :: 0 <= i < |w.workers| && w.workers[i] == Gone ==> w.stopping)
    && HoldersAgree(w)
    && AttemptsBounded(w)
    && NoWakeLost(w)
    && (w.paused ==> w.claims + Checked(w.workers) <= |w.workers|)
  }

  lemma {:induction false} CheckedUpdate(ws: seq<Worker>, i: nat, p: Worker)
    requires i < |ws|
    ensures Checked(ws[i := p]) ==
            Checked(ws) - (if ws[i] == Unpaused then 1 else 0) + (if p == Unpaused then 1 else 0)
  {
    if i == 0 {
      assert ws[i := p][1..] == ws[1..];
    } else {
      assert ws[i := p][1..] == ws[1..][i - 1 := p];
      CheckedUpdate(ws[1..], i - 1, p);
    }
  }

  lemma {:induction false} CheckedAtMost(ws: seq<Worker>)
    ensures Checked(ws) <= |ws|
  {
    if ws != [] { CheckedAtMost(ws[1..]); }
  }

  /** The steps of worker `i` that leave the table alone. */
  lemma WorkerMoves(w: World, e: Event, i: nat)
    requires Inv(w) && Allowed(w, e) && i < |w.workers|
    requires e in {ReadFlag(i), ClaimNone(i), ClaimError(i), Wake(i), Timeout(i), Return(i)}
    ensures Inv(Next(w, e))
  {
    var w' := Next(w, e);
    CheckedUpdate(w.workers, i, w'.workers[i]);
    assert Busy(w'.workers[i]) ==> SomeoneAwake(w');
  }

  lemma ClaimSafe(w: World, i: nat, id: int)
    requires Inv(w) && Allowed(w, Claim(i, id))
    ensures Inv(Next(w, Claim(i, id)))
  {
    var w' := Next(w, Claim(i, id));
    CheckedUpdate(w.workers, i, w'.workers[i]);
    assert Busy(w'.workers[i]);
    assert forall k :: 0 <= k < |w.workers| && w.workers[k].Holding? ==> w.workers[k].job.id != id;
  }

  lemma FinishSafe(w: World, i: nat, o: Outcome)
    requires Inv(w) && Allowed(w, Finish(i, o))
    ensures Inv(Next(w, Finish(i, o)))
  {
    var w' := Next(w, Finish(i, o));
    var id := w.workers[i].job.id;
    CheckedUpdate(w.workers, i, Top);
    assert Busy(w'.workers[i]);
    forall k | 0 <= k < |w.workers| && k != i && w.workers[k].Holding? ensures w.workers[k].job.id != id {}
    assert forall x :: x in w.rows && x != id ==> w'.rows[x] == w.rows[x];
  }

  lemma TableSafe(w: World, e: Event)
    requires Inv(w) && Allowed(w, e) && (e.Tick? || e.Insert? || e.Delete?)
    ensures Inv(Next(w, e))
  {
    var w' := Next(w, e);
    assert w'.workers == w.workers;
    assert SomeoneAwake(w) ==> SomeoneAwake(w');
    forall id | id in w'.covered ensures id in ReadyIds(w'.rows, w'.now) {
      assert id in w.covered && id in ReadyIds(w.rows, w.now);
      assert id in w.rows && id in w'.rows && w'.rows[id] == w.rows[id];
    }
  }

  lemma CallerSafe(w: World, e: Event)
    requires Inv(w) && Allowed(w, e)
    requires e.Notify? || e.Pause? || e.ResumeStore? || e.ResumeSend? || e.Stop?
    ensures Inv(Next(w, e))
  {
    CheckedAtMost(w.workers);
    var w' := Next(w, e);
    assert w'.workers == w.workers;
    assert SomeoneAwake(w) ==> SomeoneAwake(w');
    if e.ResumeStore? { assert e.call in w'.resumes; }
    if e.ResumeSend? && w.resumes[e.call] > 1 { assert e.call in w'.resumes; }
  }

  lemma RestartSafe(w: World, reset: bool)
    requires Inv(w)
    ensures Inv(Next(w, Restart(reset)))
  {
    var w' := Next(w, Restart(reset));
    assert w'.workers[0] == Top;
  }

  /** Every step of every interleaving keeps the invariant. */
  lemma StepSafe(w: World, e: Event)
    requires Inv(w) && Allowed(w, e)
    ensures Inv(Next(w, e))
  {
    hide Next, Inv;
    match e
    case Tick(_) => TableSafe(w, e);
    case Insert(_, _, _, _) => TableSafe(w, e);
    case Delete(_) => TableSafe(w, e);
    case Claim(i, id) => ClaimSafe(w, i, id);
    case Finish(i, o) => FinishSafe(w, i, o);
    case Restart(r) => RestartSafe(w, r);
    case ReadFlag(i) => WorkerMoves(w, e, i);
    case ClaimNone(i) => WorkerMoves(w, e, i);
    case ClaimError(i) => WorkerMoves(w, e, i);
    case Wake(i) => WorkerMoves(w, e, i);
    case Timeout(i) => WorkerMoves(w, e, i);
    case Return(i) => WorkerMoves(w, e, i);
    case _ => CallerSafe(w, e);
  }

  lemma {:induction false} RunSafe(w: World, es: seq<Event>)
    requires Inv(w) && ValidRun(w, es)
    ensures Inv(After(w, es))
    decreases |es|
  {
    hide Next, Inv, Allowed;
    if es != [] {
      StepSafe(w, es[0]);
      RunSafe(Next(w, es[0]), es[1..]);
    }
  }

  lemma BootSafe(n: nat)
    requires n >= 1
    ensures Inv(Boot(n))
  {
  }

  // ------------------------------------------------------- what it comes to

  /** No wake-up is lost: once, with the pool not paused, a Notify has returned
      or a Resume has sent a signal while a job was ready, then until a pause,
      a failed claim or the job's own claim, either a signal waits in the
      channel or some worker is not at its select; whatever Resumes are under
      way. */
  lemma NoWakeUpIsLost(n: nat, es: seq<Event>)
    requires n >= 1 && ValidRun(Boot(n), es)
    ensures var w := After(Boot(n), es); !w.stopping && w.covered != {} ==> SomeoneAwake(w)
  {
    BootSafe(n);
    RunSafe(Boot(n), es);
  }

  /** After a Notify or a Resume's signal in a pool that is not paused, every
      job that is ready then is covered. */
  lemma SignalsCover(w: World, e: Event)
    requires Inv(w) && Allowed(w, e) && (e.Notify? || e.ResumeSend?) && !w.paused
    ensures Next(w, e).covered == ReadyIds(w.rows, w.now) == ReadyIds(Next(w, e).rows, Next(w, e).now)
  {
  }

  /** A job once covered stays so until it is claimed or deleted, the pool is
      paused, a claim fails or the program restarts. */
  lemma StaysCovered(w: World, e: Event, id: int)
    requires Inv(w) && Allowed(w, e) && id in w.covered
    requires !e.Pause? && !e.ClaimError? && !e.Restart? && (e.Claim? ==> e.id != id) && id in Next(w, e).rows
    ensures id in Next(w, e).covered
  {
  }

  /** A running row is held by at most one worker, and every held row runs. */
  lemma OneHolder(n: nat, es: seq<Event>, i: nat, k: nat)
    requires n >= 1 && ValidRun(Boot(n), es)
    requires var ws := After(Boot(n), es).workers;
             i < k < |ws| && ws[i].Holding? && ws[k].Holding?
    ensures var w := After(Boot(n), es);
            && w.workers[i].job.id != w.workers[k].job.id
            && w.workers[i].job.id in w.rows && w.rows[w.workers[i].job.id].state == Running
  {
    BootSafe(n);
    RunSafe(Boot(n), es);
  }

  /** A job is tried at most its allowance, and once more for each restart that
      found it running. */
  lemma AttemptsAreBounded(n: nat, es: seq<Event>, id: int)
    requires n >= 1 && ValidRun(Boot(n), es) && id in After(Boot(n), es).rows
    ensures var w := After(Boot(n), es);
            id in w.resets && w.rows[id].attempts <= w.rows[id].maxAttempts + w.resets[id]
  {
    BootSafe(n);
    RunSafe(Boot(n), es);
  }

  /** After Pause returns and until Resume, at most one job per worker is
      claimed, whatever the interleaving. */
  lemma PauseBoundsClaims(n: nat, es: seq<Event>)
    requires n >= 1 && ValidRun(Boot(n), es)
    ensures var w := After(Boot(n), es); w.paused ==> w.claims <= |w.workers|
  {
    BootSafe(n);
    RunSafe(Boot(n), es);
  }

  /** A job leaves the table only by being deleted while pending, and a job
      that is done or failed stays exactly as it is. */
  lemma StepKeepsJobs(w: World, e: Event, id: int)
    requires Inv(w) && Allowed(w, e) && id in w.rows
    ensures id !in Next(w, e).rows ==> e.Delete? && w.rows[id].state == Pending
    ensures w.rows[id].state == Done || w.rows[id].state == Failed ==>
              id in Next(w, e).rows && Next(w, e).rows[id] == w.rows[id]
  {
  }

  /** The row after a worker is through with its job, `now` being the time. */
  predicate EndedAs(r: JobRow, r': JobRow, o: Outcome, now: int) {
    match o
    case Succeeded => r' == r.(state := Done)
    case Unknown => r' == r.(state := Failed)
    case Unrecorded => r' == r
    case Erred =>
      if r.attempts < r.maxAttempts then r' == r.(state := Pending, runAfter := now + Delay(r.attempts))
      else r' == r.(state := Failed)
  }

  /** What a handler's end does: an error is retried later while attempts are
      left, twice as much later each time, and is final otherwise; a kind
      nobody handles fails at once. No other job is touched. */
  lemma FinishEnds(w: World, i: nat, o: Outcome)
    requires Inv(w) && Allowed(w, Finish(i, o))
    ensures var id, rows' := w.workers[i].job.id, Next(w, Finish(i, o)).rows;
            && id in w.rows && rows'.Keys == w.rows.Keys
            && EndedAs(w.rows[id], rows'[id], o, w.now)
            && forall other :: other in w.rows && other != id ==> rows'[other] == w.rows[other]
  {
  }

  /** The job a worker holds, if any. */
  predicate Holds(w: World, i: nat, id: int) {
    i < |w.workers| && w.workers[i].Holding? && w.workers[i].job.id == id
  }

  /** Everything that ever changes a job's row: a claim when it is ready, the
      end of its own worker's run, and a restart that finds it running. */
  lemma RowChanges(w: World, e: Event, id: int)
    requires Inv(w) && Allowed(w, e) && id in w.rows && id in Next(w, e).rows
    ensures var r, r' := w.rows[id], Next(w, e).rows[id];
            if e.Claim? && e.id == id then
              && r.state == Pending && r.runAfter <= w.now
              && r' == r.(state := Running, attempts := r.attempts + 1)
            else if e.Finish? && Holds(w, e.w, id) then r.state == Running && EndedAs(r, r', e.outcome, w.now)
            else if e == Restart(true) && r.state == Running then r' == r.(state := Pending)
            else r' == r
  {
    if e.Finish? { FinishEnds(w, e.w, e.outcome); }
  }

  /** A new job waits for its time with three attempts before it. */
  lemma NewJobWaits(w: World, id: int, kind: string, payload: string, at: int)
    requires Allowed(w, Insert(id, kind, payload, at))
    ensures Next(w, Insert(id, kind, payload, at)).rows == w.rows[id := JobRow(kind, payload, Pending, 0, 3, at)]
  {
  }

  /** A worker that asks for a job gets the pending one with the lowest id of
      those whose time has come, and none only if there is none. */
  lemma FirstDueIsClaimed(w: World, i: nat, id: int)
    requires At(w, i, Unpaused) && id in w.rows && w.rows[id].state == Pending && w.rows[id].runAfter <= w.now
    requires forall x :: x in w.rows && x < id ==> w.rows[x].state != Pending || w.rows[x].runAfter > w.now
    ensures Allowed(w, Claim(i, id)) && !Allowed(w, ClaimNone(i))
    ensures forall x :: Allowed(w, Claim(i, x)) ==> x == id
  {
    assert id in ReadyIds(w.rows, w.now);
  }

  lemma {:induction false} TimePasses(w: World, es: seq<Event>)
    requires ValidRun(w, es)
    ensures w.now <= After(w, es).now
    decreases |es|
  {
    hide Allowed;
    if es != [] {
      TimeStands(w, es[0]);
      hide Next;
      TimePasses(Next(w, es[0]), es[1..]);
    }
  }

  lemma TimeStands(w: World, e: Event)
    requires Allowed(w, e)
    ensures w.now <= Next(w, e).now
  {
  }

  /** No deletion asks for jobs of this kind with this payload. */
  predicate Spared(es: seq<Event>, kind: string, payload: string) {
    forall k :: 0 <= k < |es| && es[k].Delete? ==> !es[k].doomed(kind, payload)
  }

  /** In no run does a worker take a waiting job before its time: until then its
      row stays as it is, unless it is deleted. */
  lemma {:induction false} WaitsItsTime(w: World, es: seq<Event>, id: int)
    requires Inv(w) && ValidRun(w, es) && id in w.rows && w.rows[id].state == Pending
    requires Spared(es, w.rows[id].kind, w.rows[id].payload) && After(w, es).now < w.rows[id].runAfter
    ensures id in After(w, es).rows && After(w, es).rows[id] == w.rows[id]
    ensures forall k :: 0 <= k < |es| ==> !(es[k].Claim? && es[k].id == id)
    decreases |es|
  {
    if es != [] {
      var e, w' := es[0], Next(w, es[0]);
      TimePasses(w, [e]);
      TimePasses(w', es[1..]);
      StillThere(w, e, id);
      RowChanges(w, e, id);
      StepSafe(w, e);
      hide Next, Inv, Allowed;
      assert Spared(es[1..], w.rows[id].kind, w.rows[id].payload);
      WaitsItsTime(w', es[1..], id);
    }
  }

  lemma StillThere(w: World, e: Event, id: int)
    requires Inv(w) && Allowed(w, e) && id in w.rows
    requires e.Delete? ==> !e.doomed(w.rows[id].kind, w.rows[id].payload)
    ensures id in Next(w, e).rows
  {
  }

  lemma {:induction false} FinalIsFinal(w: World, es: seq<Event>, id: int)
    requires Inv(w) && ValidRun(w, es) && id in w.rows
    requires w.rows[id].state == Done || w.rows[id].state == Failed
    ensures id in After(w, es).rows && After(w, es).rows[id] == w.rows[id]
    decreases |es|
  {
    hide Next, Inv, Allowed;
    if es != [] {
      StepSafe(w, es[0]);
      StepKeepsJobs(w, es[0], id);
      FinalIsFinal(Next(w, es[0]), es[1..], id);
    }
  }

  /** A worker uses a signal up finding the pool paused. */
  lemma SignalUsedUp(kind: string, payload: string) returns (es: seq<Event>)
    ensures ValidRun(Boot(1), es)
    ensures var w := After(Boot(1), es);
            && w.paused && !w.stopping && w.resumes == map[] && w.wake == 0 && w.workers == [AtSelect]
            && 7 in ReadyIds(w.rows, w.now)
  {
    hide ValidRun, After;
    var b := Boot(1);
    NoEvents(b);
    es := Then(b, [], Pause);
    es := Then(b, es, Insert(7, kind, payload, 0));
    es := Then(b, es, Notify);
    es := Then(b, es, ReadFlag(0));
    es := Then(b, es, Wake(0));
    es := Then(b, es, ReadFlag(0));
  }

  /** Why a Notify made while the pool is paused covers nothing: a worker may
      use its signal up finding the pool paused, and until the Resume that has
      cleared the flag sends one, nobody is awake though a job is ready. */
  lemma ResumeHalfWay(kind: string, payload: string) returns (es: seq<Event>)
    ensures ValidRun(Boot(1), es)
    ensures var w := After(Boot(1), es);
            && !w.paused && !w.stopping && ReadyIds(w.rows, w.now) != {} && !SomeoneAwake(w)
            && w.resumes != map[]
  {
    hide ValidRun, After;
    es := SignalUsedUp(kind, payload);
    es := Then(Boot(1), es, ResumeStore(0));
    assert 0 in After(Boot(1), es).resumes;
  }

  lemma NoEvents(w: World)
    ensures ValidRun(w, []) && After(w, []) == w
  {
  }

  lemma {:induction false} Then(w: World, es: seq<Event>, e: Event) returns (more: seq<Event>)
    requires ValidRun(w, es) && Allowed(After(w, es), e)
    ensures ValidRun(w, more) && After(w, more) == Next(After(w, es), e) && more == es + [e]
    decreases |es|
  {
    hide Allowed, Next;
    more := es + [e];
    if es == [] {
      assert more == [e] && [e][1..] == [];
    } else {
      var rest := Then(Next(w, es[0]), es[1..], e);
      assert more[0] == es[0] && more[1..] == es[1..] + [e];
    }
  }
}
