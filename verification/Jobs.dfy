/** The durable job queue: the `jobs` table and the statements that change it. */
module Jobs {
  import opened Wrappers

  /** Microseconds. */
  const SECOND: int := 1_000_000
  const CONFIG_DEBOUNCE: int := 5 * SECOND
  const HELD_RECHECK: int := 20 * 60 * SECOND
  const STUCK_LOCK: int := 45 * 60 * SECOND
  const BATCH_SIZE: nat := 8
  const MAX_ATTEMPTS: nat := 8

  /** A job's kind together with its payload. */
  datatype Task = PlayerSync(discordId: string) | ConfigSync(guild: string, role: string) | AccountSync(did: string)

  datatype Status = Pending | InProgress | Completed | Dead

  datatype Row = Row(
    task: Task,
    status: Status,
    attempts: nat,
    maxAttempts: nat,
    nextRunAt: int,
    lockedBy: Option<string>,
    lockedAt: Option<int>,
    completedAt: Option<int>)

  /** The table, its id sequence and the database clock. */
  datatype Queue = Queue(rows: map<nat, Row>, nextId: nat, now: int)

  function Insert(q: Queue, task: Task, delay: int): Queue {
    q.(rows := q.rows[q.nextId := Row(task, Pending, 0, MAX_ATTEMPTS, q.now + delay, None, None, None)],
       nextId := q.nextId + 1)
  }

  /** Player and account syncs are due at once, config syncs are debounced. */
  function DelayOf(task: Task): int {
    if task.ConfigSync? then CONFIG_DEBOUNCE else 0
  }

  function InsertDue(q: Queue, task: Task): Queue {
    Insert(q, task, DelayOf(task))
  }

  /** The waiting jobs for one task. */
  function PendingCopies(q: Queue, task: Task): set<nat> {
    set id | id in q.rows && q.rows[id].status.Pending? && q.rows[id].task == task
  }

  /** `enqueue_config_sync_unless_queued` with the held-write delay. */
  function InsertUnlessQueued(q: Queue, task: Task): Queue {
    if PendingCopies(q, task) == {} then Insert(q, task, HELD_RECHECK) else q
  }

  // ---------- Claiming ----------

  predicate Eligible(q: Queue, id: nat) {
    id in q.rows && q.rows[id].status.Pending? && q.rows[id].nextRunAt <= q.now
  }

  /** The eligible jobs no other transaction has row-locked (SKIP LOCKED). */
  function Candidates(q: Queue, skip: set<nat>): set<nat> {
    set id | id in q.rows && Eligible(q, id) && id !in skip
  }

  /** How many members of s are below k. */
  function Below(s: set<nat>, k: nat): nat {
    if k == 0 then 0 else Below(s, k - 1) + (if k - 1 in s then 1 else 0)
  }

  /** ORDER BY id LIMIT: the candidates with fewer than BATCH_SIZE candidates before them. */
  function Batch(q: Queue, skip: set<nat>): set<nat> {
    set id | id in Candidates(q, skip) && Below(Candidates(q, skip), id) < BATCH_SIZE
  }

  function ClaimRow(row: Row, worker: string, now: int): Row {
    row.(status := InProgress, lockedBy := Some(worker), lockedAt := Some(now), attempts := row.attempts + 1)
  }

  function Claim(q: Queue, worker: string, skip: set<nat>): Queue {
    var batch := Batch(q, skip);
    q.(rows := map id | id in q.rows :: if id in batch then ClaimRow(q.rows[id], worker, q.now) else q.rows[id])
  }

  // ---------- Resolving ----------

  function Finish(q: Queue, id: nat, status: Status): Queue {
    if id in q.rows then
      q.(rows := q.rows[id := q.rows[id].(status := status, completedAt := Some(q.now),
                                          lockedBy := None, lockedAt := None)])
    else q
  }

  function Pow2(n: nat): nat {
    if n == 0 then 1 else 2 * Pow2(n - 1)
  }

  /** `backoff_delay` with `jitterMs` drawn from 0..1000. */
  function Backoff(attempts: nat, jitterMs: nat): int {
    var capped := if attempts < 1 then 1 else if attempts > 8 then 8 else attempts;
    Pow2(capped) * SECOND + jitterMs * 1000
  }

  /** `fail_retry`: the delay comes from the attempts of the claim being resolved. */
  function PutBack(q: Queue, id: nat, attempts: nat, jitterMs: nat): Queue {
    if id in q.rows then
      q.(rows := q.rows[id := q.rows[id].(status := Pending, nextRunAt := q.now + Backoff(attempts, jitterMs),
                                          lockedBy := None, lockedAt := None)])
    else q
  }

  predicate Stuck(q: Queue, id: nat) {
    && id in q.rows
    && q.rows[id].status.InProgress?
    && q.rows[id].lockedAt.Some?
    && q.rows[id].lockedAt.value < q.now - STUCK_LOCK
  }

  function Reap(q: Queue): Queue {
    q.(rows := map id | id in q.rows ::
         if Stuck(q, id) then q.rows[id].(status := Pending, nextRunAt := q.now, lockedBy := None, lockedAt := None)
         else q.rows[id])
  }

  // ---------- What a statement leaves ----------

  /** No row but this one is touched, and none comes or goes. */
  predicate OnlyRow(rows: map<nat, Row>, rows': map<nat, Row>, id: nat) {
    rows'.Keys == rows.Keys && forall k :: k in rows && k != id ==> rows'[k] == rows[k]
  }

  /** The job is over: its outcome and time are recorded and its lock is gone. */
  predicate EndedAs(row: Row, row': Row, outcome: Status, now: int) {
    row' == Row(row.task, outcome, row.attempts, row.maxAttempts, row.nextRunAt, None, None, Some(now))
  }

  /** Seconds until the next attempt, by the attempts made; the last entry stands for all beyond it. */
  const RETRY_SECONDS: seq<int> := [2, 2, 4, 8, 16, 32, 64, 128, 256]

  /** The job waits, unlocked, for its delay and a jitter of less than a second. */
  predicate WaitsAgain(row: Row, row': Row, attempts: nat, jitterMs: nat, now: int) {
    var seconds := RETRY_SECONDS[if attempts < 8 then attempts else 8];
    row' == Row(row.task, Pending, row.attempts, row.maxAttempts,
                now + seconds * SECOND + jitterMs * 1000, None, None, row.completedAt)
  }

  /** Delays double from 2 to 256 seconds. */
  lemma BackoffTable(attempts: nat, jitterMs: nat)
    ensures Backoff(attempts, jitterMs)
         == RETRY_SECONDS[if attempts < 8 then attempts else 8] * SECOND + jitterMs * 1000
  {
    assert Pow2(1) == 2 && Pow2(2) == 4 && Pow2(3) == 8 && Pow2(4) == 16;
    assert Pow2(5) == 32 && Pow2(6) == 64 && Pow2(7) == 128 && Pow2(8) == 256;
  }

  /**
   * What a claim does, row by row: of the waiting jobs that are due and not row-locked by others, those
   * with fewer than eight of them before are locked and their attempt is counted; no other row changes.
   */
  predicate FirstEightDue(
      rows: map<nat, Row>, rows': map<nat, Row>, claimed: set<nat>, worker: string, now: int, skip: set<nat>)
  {
    var due := set id | id in rows && rows[id].status.Pending? && rows[id].nextRunAt <= now && id !in skip;
    && rows'.Keys == rows.Keys
    && claimed == (set id | id in due && |set j | j in due && j < id| < 8)
    && forall id :: id in rows ==>
         rows'[id] ==
         if id in claimed then
           Row(rows[id].task, InProgress, rows[id].attempts + 1, rows[id].maxAttempts,
               rows[id].nextRunAt, Some(worker), Some(now), rows[id].completedAt)
         else rows[id]
  }

  lemma ClaimTells(q: Queue, worker: string, skip: set<nat>)
    ensures var q' := Claim(q, worker, skip);
            && FirstEightDue(q.rows, q'.rows, Batch(q, skip), worker, q.now, skip)
            && q'.now == q.now && q'.nextId == q.nextId
  {
    hide Below;
    assert (set id | id in q.rows && q.rows[id].status.Pending? && q.rows[id].nextRunAt <= q.now && id !in skip)
        == Candidates(q, skip);
    forall id: nat
      ensures Below(Candidates(q, skip), id) == |set j | j in Candidates(q, skip) && j < id|
    {
      BelowIsCardinality(Candidates(q, skip), id);
    }
  }

  lemma BatchOfRows(q: Queue, skip: set<nat>, candidates: set<nat>, batch: set<nat>)
    requires candidates == set id | id in q.rows && q.rows[id].status.Pending?
                                    && q.rows[id].nextRunAt <= q.now && id !in skip
    requires batch == set id | id in candidates && Below(candidates, id) < BATCH_SIZE
    ensures batch == Batch(q, skip) && batch <= q.rows.Keys
  {
    assert candidates == Candidates(q, skip);
  }

  lemma ClaimedQueue(q: Queue, worker: string, skip: set<nat>)
    ensures Claim(q, worker, skip)
         == q.(rows := map id | id in q.rows ::
                 if id in Batch(q, skip) then
                   q.rows[id].(status := InProgress, lockedBy := Some(worker), lockedAt := Some(q.now),
                               attempts := q.rows[id].attempts + 1)
                 else q.rows[id])
  {
    hide Batch;
  }

  // ---------- The table in place ----------

  /** The database, its rows updated in place. */
  class JobTable {
    var rows: map<nat, Row>
    var nextId: nat
    var now: int

    function Value(): Queue
      reads this
    {
      Queue(rows, nextId, now)
    }

    constructor ()
      ensures Value() == Queue(map[], 1, 0)
    {
      rows, nextId, now := map[], 1, 0;
    }

    /** A job that has not run yet, due after the delay, under the next id. */
    method Enqueue(task: Task, delay: int)
      modifies this
      ensures Value() == Insert(old(Value()), task, delay)
      ensures rows == old(rows)[old(nextId) := Row(task, Pending, 0, 8, now + delay, None, None, None)]
      ensures nextId == old(nextId) + 1 && now == old(now)
    {
      rows := rows[nextId := Row(task, Pending, 0, MAX_ATTEMPTS, now + delay, None, None, None)];
      nextId := nextId + 1;
    }

    method EnqueuePlayerSync(discordId: string)
      modifies this
      ensures Value() == InsertDue(old(Value()), PlayerSync(discordId))
      ensures rows == old(rows)[old(nextId) := Row(PlayerSync(discordId), Pending, 0, 8, now, None, None, None)]
      ensures now == old(now)
    {
      Enqueue(PlayerSync(discordId), 0);
    }

    method EnqueueConfigSync(guild: string, role: string)
      modifies this
      ensures Value() == InsertDue(old(Value()), ConfigSync(guild, role))
      ensures rows == old(rows)[
                old(nextId) := Row(ConfigSync(guild, role), Pending, 0, 8, now + 5 * SECOND, None, None, None)]
      ensures now == old(now)
    {
      Enqueue(ConfigSync(guild, role), CONFIG_DEBOUNCE);
    }

    method EnqueueAccountSync(did: string)
      modifies this
      ensures Value() == InsertDue(old(Value()), AccountSync(did))
      ensures rows == old(rows)[old(nextId) := Row(AccountSync(did), Pending, 0, 8, now, None, None, None)]
      ensures now == old(now)
    {
      Enqueue(AccountSync(did), 0);
    }

    method EnqueueConfigSyncUnlessQueued(guild: string, role: string)
      modifies this
      ensures Value() == InsertUnlessQueued(old(Value()), ConfigSync(guild, role))
      ensures now == old(now)
      ensures (exists id :: id in old(rows) && old(rows)[id].status.Pending?
                            && old(rows)[id].task == ConfigSync(guild, role)) ==>
                rows == old(rows) && nextId == old(nextId)
      ensures (forall id :: id in old(rows) && old(rows)[id].status.Pending? ==>
                 old(rows)[id].task != ConfigSync(guild, role)) ==>
                && nextId == old(nextId) + 1
                && rows == old(rows)[old(nextId) :=
                     Row(ConfigSync(guild, role), Pending, 0, 8, now + 20 * 60 * SECOND, None, None, None)]
    {
      var task := ConfigSync(guild, role);
      if exists id :: id in rows && rows[id].status.Pending? && rows[id].task == task {
        ghost var id :| id in rows && rows[id].status.Pending? && rows[id].task == task;
        assert id in PendingCopies(Value(), task);
      } else {
        assert PendingCopies(Value(), task) == {};
        rows := rows[nextId := Row(task, Pending, 0, MAX_ATTEMPTS, now + HELD_RECHECK, None, None, None)];
        nextId := nextId + 1;
      }
    }

    /**
     * One UPDATE ... RETURNING; the rows come back in no particular order. Of the waiting jobs that are
     * due and not row-locked by others, those with fewer than eight of them before are claimed.
     */
    method ClaimBatch(worker: string, skip: set<nat>) returns (claimed: map<nat, Row>)
      modifies this
      ensures Value() == Claim(old(Value()), worker, skip)
      ensures claimed.Keys == Batch(old(Value()), skip)
      ensures forall id :: id in claimed ==> id in rows && claimed[id] == rows[id]
      ensures FirstEightDue(old(rows), rows, claimed.Keys, worker, old(now), skip)
      ensures now == old(now) && nextId == old(nextId)
    {
      ClaimTells(Value(), worker, skip);
      hide Claim, Batch, Eligible, FirstEightDue;
      var candidates := set id | id in rows && rows[id].status.Pending? && rows[id].nextRunAt <= now && id !in skip;
      var batch := set id | id in candidates && Below(candidates, id) < BATCH_SIZE;
      BatchOfRows(Value(), skip, candidates, batch);
      ClaimedQueue(Value(), worker, skip);
      rows := map id | id in rows ::
        if id in batch then
          rows[id].(status := InProgress, lockedBy := Some(worker), lockedAt := Some(now),
                    attempts := rows[id].attempts + 1)
        else rows[id];
      claimed := map id | id in rows && id in batch :: rows[id];
    }

    method Complete(id: nat)
      modifies this
      ensures Value() == Finish(old(Value()), id, Completed)
      ensures OnlyRow(old(rows), rows, id) && now == old(now) && nextId == old(nextId)
      ensures id in old(rows) ==> EndedAs(old(rows)[id], rows[id], Completed, now)
    {
      if id in rows {
        rows := rows[id := rows[id].(status := Completed, completedAt := Some(now),
                                     lockedBy := None, lockedAt := None)];
      }
    }

    method FailRetry(id: nat, attempts: nat, jitterMs: nat)
      modifies this
      ensures Value() == PutBack(old(Value()), id, attempts, jitterMs)
      ensures OnlyRow(old(rows), rows, id) && now == old(now) && nextId == old(nextId)
      ensures id in old(rows) ==> WaitsAgain(old(rows)[id], rows[id], attempts, jitterMs, now)
    {
      BackoffTable(attempts, jitterMs);
      var delay := Backoff(attempts, jitterMs);
      if id in rows {
        rows := rows[id := rows[id].(status := Pending, nextRunAt := now + delay, lockedBy := None, lockedAt := None)];
      }
    }

    method FailDead(id: nat)
      modifies this
      ensures Value() == Finish(old(Value()), id, Dead)
      ensures OnlyRow(old(rows), rows, id) && now == old(now) && nextId == old(nextId)
      ensures id in old(rows) ==> EndedAs(old(rows)[id], rows[id], Dead, now)
    {
      if id in rows {
        rows := rows[id := rows[id].(status := Dead, completedAt := Some(now), lockedBy := None, lockedAt := None)];
      }
    }

    method ReapStuck() returns (reaped: nat)
      modifies this
      ensures Value() == Reap(old(Value()))
      ensures var late := set id | id in old(rows) && old(rows)[id].status.InProgress? && old(rows)[id].lockedAt.Some?
                                   && old(rows)[id].lockedAt.value < now - 45 * 60 * SECOND;
              && rows.Keys == old(rows).Keys && now == old(now) && nextId == old(nextId)
              && reaped == |late|
              && forall id :: id in rows ==>
                   rows[id] ==
                   if id in late then
                     Row(old(rows)[id].task, Pending, old(rows)[id].attempts, old(rows)[id].maxAttempts,
                         now, None, None, old(rows)[id].completedAt)
                   else old(rows)[id]
    {
      var stuck := set id | id in rows && rows[id].status.InProgress? && rows[id].lockedAt.Some?
                            && rows[id].lockedAt.value < now - STUCK_LOCK;
      assert stuck == set id | id in old(rows) && Stuck(old(Value()), id);
      reaped := |stuck|;
      rows := map id | id in rows ::
        if id in stuck then rows[id].(status := Pending, nextRunAt := now, lockedBy := None, lockedAt := None)
        else rows[id];
    }
  }

  // ---------- Properties of single statements ----------

  lemma {:induction false} BatchBelow(q: Queue, skip: set<nat>, k: nat)
    ensures var all := Below(Candidates(q, skip), k);
            Below(Batch(q, skip), k) == if all < BATCH_SIZE then all else BATCH_SIZE
  {
    if k > 0 {
      BatchBelow(q, skip, k - 1);
    }
  }

  lemma {:induction false} BelowMonotone(s: set<nat>, j: nat, k: nat)
    requires j <= k
    ensures Below(s, j) <= Below(s, k)
    decreases k
  {
    if j < k {
      BelowMonotone(s, j, k - 1);
    }
  }

  /** `Below` counts. */
  lemma {:induction false} BelowIsCardinality(s: set<nat>, k: nat)
    ensures Below(s, k) == |set x | x in s && x < k|
  {
    if k == 0 {
      assert (set x | x in s && x < k) == {};
    } else {
      BelowIsCardinality(s, k - 1);
      var smaller := set x | x in s && x < k - 1;
      if k - 1 in s {
        assert (set x | x in s && x < k) == smaller + {k - 1};
      } else {
        assert (set x | x in s && x < k) == smaller;
      }
    }
  }

  /** A claim takes at most eight jobs; a due job is passed over only for eight lower ids. */
  lemma BatchIsFirstEight(q: Queue, skip: set<nat>, k: nat)
    ensures |Batch(q, skip)| <= BATCH_SIZE
    ensures k in Candidates(q, skip) && k !in Batch(q, skip)
        ==> Below(Batch(q, skip), k) == BATCH_SIZE && forall id :: id in Batch(q, skip) ==> id < k
  {
    var batch := Batch(q, skip);
    var top := Top(batch);
    BatchBelow(q, skip, top);
    BelowIsCardinality(batch, top);
    assert (set x | x in batch && x < top) == batch;
    BatchBelow(q, skip, k);
    if k in Candidates(q, skip) && k !in batch {
      forall id | id in batch
        ensures id < k
      {
        if id >= k {
          BelowMonotone(Candidates(q, skip), k, id);
        }
      }
    }
  }

  /** A number above every member. */
  ghost function Top(s: set<nat>): (t: nat)
    ensures forall x :: x in s ==> x < t
  {
    if s == {} then 0
    else
      var x :| x in s;
      var rest := Top(s - {x});
      assert forall y :: y in s ==> y == x || y in s - {x};
      if x < rest then rest else x + 1
  }

  lemma BackoffIsBounded(attempts: nat, jitterMs: nat)
    requires jitterMs < 1000
    ensures 2 * SECOND <= Backoff(attempts, jitterMs) < 257 * SECOND
  {
    assert Pow2(1) == 2 && Pow2(2) == 4 && Pow2(3) == 8 && Pow2(4) == 16;
    assert Pow2(5) == 32 && Pow2(6) == 64 && Pow2(7) == 128 && Pow2(8) == 256;
  }

  /** Queueing a recheck leaves the copies already waiting, or exactly one. */
  lemma RecheckKeepsOne(q: Queue, task: Task)
    requires q.nextId !in q.rows
    ensures var before, after := |PendingCopies(q, task)|, |PendingCopies(InsertUnlessQueued(q, task), task)|;
            after == if before > 1 then before else 1
  {
    var q' := InsertUnlessQueued(q, task);
    if PendingCopies(q, task) == {} {
      assert PendingCopies(q', task) == {q.nextId} by {
        forall id
          ensures id in PendingCopies(q', task) <==> id == q.nextId
        {
          assert id in PendingCopies(q', task) && id != q.nextId ==> id in PendingCopies(q, task);
        }
      }
    } else {
      var id :| id in PendingCopies(q, task);
      assert |PendingCopies(q, task)| >= 1 by {
        assert {id} <= PendingCopies(q, task);
        assert PendingCopies(q, task) == {id} + (PendingCopies(q, task) - {id});
      }
    }
  }
}
