/** The job queue: the `jobs` table and the single statements that change it
    (internal/jobs/queue.go). Every statement is one atomic step. */
module JobQueue {
  import opened Options
  import opened Sets

  datatype JobState = Pending | Running | Done | Failed

  /** A row of `jobs`; times are in seconds. */
  datatype JobRow = JobRow(
    kind: string, payload: string, state: JobState, attempts: nat, maxAttempts: nat, runAfter: int)

  /** A claimed job as its worker holds it. */
  datatype Job = Job(id: int, kind: string, payload: string, attempts: nat, maxAttempts: nat)

  type Rows = map<int, JobRow>

  const MAX_ATTEMPTS: nat := 3

  predicate Ready(r: JobRow, now: int) { r.state == Pending && r.runAfter <= now }

  /** The ready jobs. */
  function ReadyIds(rows: Rows, now: int): set<int> { set id | id in rows && Ready(rows[id], now) }

  /** The job the next claim takes: the ready one with the lowest id. */
  predicate IsNext(rows: Rows, now: int, id: int) {
    id in ReadyIds(rows, now) && forall other :: other in ReadyIds(rows, now) ==> id <= other
  }

  function Enqueued(rows: Rows, id: int, kind: string, payload: string, runAfter: int): Rows {
    rows[id := JobRow(kind, payload, Pending, 0, MAX_ATTEMPTS, runAfter)]
  }

  function Claimed(rows: Rows, id: int): Rows
    requires id in rows
  {
    rows[id := rows[id].(state := Running, attempts := rows[id].attempts + 1)]
  }

  function JobOf(rows: Rows, id: int): Job
    requires id in rows
  {
    var r := rows[id];
    Job(id, r.kind, r.payload, r.attempts, r.maxAttempts)
  }

  function Completed(rows: Rows, id: int): Rows {
    if id in rows then rows[id := rows[id].(state := Done)] else rows
  }

  function Pow2(n: nat): nat { if n == 0 then 1 else 2 * Pow2(n - 1) }

  /** Backoff: 2^attempts minutes. */
  function Delay(attempts: nat): nat { 60 * Pow2(attempts) }

  function FailedWith(rows: Rows, j: Job, now: int): Rows {
    if j.id !in rows then rows
    else if j.attempts >= j.maxAttempts then rows[j.id := rows[j.id].(state := Failed)]
    else rows[j.id := rows[j.id].(state := Pending, runAfter := now + Delay(j.attempts))]
  }

  /** Only jobs that have not started can be deleted. */
  function WithoutPending(rows: Rows, doomed: (string, string) -> bool): Rows {
    map id | id in rows && !(rows[id].state == Pending && doomed(rows[id].kind, rows[id].payload)) :: rows[id]
  }

  function Reset(rows: Rows): Rows {
    map id | id in rows :: if rows[id].state == Running then rows[id].(state := Pending) else rows[id]
  }

  /** The first retry waits two minutes, and each further one twice as long. */
  lemma DelayDoubles(attempts: nat)
    ensures Delay(1) == 120 && Delay(attempts + 1) == 2 * Delay(attempts)
  {
    assert Pow2(1) == 2 * Pow2(0);
  }

  lemma LeastExists(s: set<int>) returns (least: int)
    requires s != {}
    ensures least in s && forall x :: x in s ==> least <= x
  {
    Inhabited(s);
    var x :| x in s;
    var rest := s - {x};
    if rest == {} {
      least := x;
      assert s == {x};
    } else {
      var m := LeastExists(rest);
      least := if m < x then m else x;
      assert forall y :: y in s ==> y == x || y in rest;
    }
  }

  /** The table as the statements update it. */
  class Queue {
    var rows: Rows

    /** `id` is the fresh one the database picks. */
    method EnqueueAt(id: int, kind: string, payload: string, at: int)
      requires id !in rows
      modifies this
      ensures rows == Enqueued(old(rows), id, kind, payload, at)
    {
      rows := rows[id := JobRow(kind, payload, Pending, 0, MAX_ATTEMPTS, at)];
    }

    method Enqueue(id: int, kind: string, payload: string, now: int)
      requires id !in rows
      modifies this
      ensures rows == Enqueued(old(rows), id, kind, payload, now)
    {
      EnqueueAt(id, kind, payload, now);
    }

    method Claim(now: int) returns (job: Option<Job>)
      modifies this
      ensures job.None? <==> ReadyIds(old(rows), now) == {}
      ensures job.None? ==> rows == old(rows)
      ensures job.Some? ==>
                && IsNext(old(rows), now, job.value.id)
                && rows == Claimed(old(rows), job.value.id)
                && job.value == JobOf(rows, job.value.id)
    {
      var ready := set id | id in rows && Ready(rows[id], now);
      assert ready == ReadyIds(rows, now);
      if ready == {} {
        return None;
      }
      ghost var least := LeastExists(ready);
      var id :| id in ready && forall other :: other in ready ==> id <= other;
      var r := rows[id];
      rows := rows[id := r.(state := Running, attempts := r.attempts + 1)];
      return Some(Job(id, r.kind, r.payload, r.attempts + 1, r.maxAttempts));
    }

    method Complete(id: int)
      modifies this
      ensures rows == Completed(old(rows), id)
    {
      if id in rows {
        rows := rows[id := rows[id].(state := Done)];
      }
    }

    method Fail(j: Job, now: int)
      modifies this
      ensures rows == FailedWith(old(rows), j, now)
    {
      if j.id in rows {
        if j.attempts >= j.maxAttempts {
          rows := rows[j.id := rows[j.id].(state := Failed)];
        } else {
          rows := rows[j.id := rows[j.id].(state := Pending, runAfter := now + Delay(j.attempts))];
        }
      }
    }

    method DeletePending(doomed: (string, string) -> bool) returns (n: nat)
      modifies this
      ensures rows == WithoutPending(old(rows), doomed)
      ensures forall id :: id in rows <==>
                && id in old(rows)
                && !(old(rows)[id].state == Pending && doomed(old(rows)[id].kind, old(rows)[id].payload))
      ensures forall id :: id in rows ==> rows[id] == old(rows)[id]
      ensures n == |old(rows)| - |rows|
    {
      var gone := set id | id in rows && rows[id].state == Pending && doomed(rows[id].kind, rows[id].payload);
      n := |gone|;
      var left := map id | id in rows && id !in gone :: rows[id];
      assert left.Keys == rows.Keys - gone;
      assert |left.Keys| == |rows.Keys| - |gone|;
      rows := left;
    }

    method ResetRunning()
      modifies this
      ensures rows == Reset(old(rows))
    {
      rows := map id | id in rows :: if rows[id].state == Running then rows[id].(state := Pending) else rows[id];
    }
  }
}
