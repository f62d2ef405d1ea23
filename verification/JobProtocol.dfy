/**
 * The queue as a protocol: any number of workers claim, resolve, crash and are reaped in any order.
 * Each statement is one atomic step; a run is a sequence of steps.
 */
module JobProtocol {
  import opened Wrappers
  import opened Jobs

  /**
   * The table and who is working on what. A claim is identified by the job and the number of attempts
   * it returned; resolving statements name the job only, so a claim may outlive its lock.
   */
  datatype State = State(q: Queue, holders: map<(nat, nat), string>)

  const INITIAL := State(Queue(map[], 1, 0), map[])

  datatype Event =
    | Enqueue(task: Task)
    | Recheck(guild: string, role: string)
    | Take(worker: string, skip: set<nat>)
    | Done(id: nat, n: nat)                    // dispatch succeeded: complete
    | Kill(id: nat, n: nat)                    // terminal error, or the last attempt failed: fail_dead
    | Retry(id: nat, n: nat, jitterMs: nat)    // attempts left: fail_retry
    | Release(id: nat, n: nat, jitterMs: nat)  // worker shutting down: fail_retry, no cap check
    | Lose(id: nat, n: nat)                    // worker crashed, or its resolving statement failed
    | ReapStuck
    | Tick(us: nat)

  predicate Enabled(s: State, e: Event) {
    match e
    case Enqueue(_) => true
    case Recheck(_, _) => true
    case Take(_, _) => true
    case Done(id, n) => (id, n) in s.holders
    case Kill(id, n) => (id, n) in s.holders
    case Retry(id, n, jitterMs) =>
      (id, n) in s.holders && jitterMs < 1000 && id in s.q.rows && n < s.q.rows[id].maxAttempts
    case Release(id, n, jitterMs) => (id, n) in s.holders && jitterMs < 1000
    case Lose(id, n) => (id, n) in s.holders
    case ReapStuck => true
    case Tick(_) => true
  }

  function Claims(q: Queue, worker: string, skip: set<nat>): map<(nat, nat), string> {
    var batch := Batch(q, skip);
    map id | id in q.rows && id in batch :: (id, q.rows[id].attempts + 1) := worker
  }

  function Apply(s: State, e: Event): State {
    match e
    case Enqueue(task) => s.(q := InsertDue(s.q, task))
    case Recheck(guild, role) => s.(q := InsertUnlessQueued(s.q, ConfigSync(guild, role)))
    case Take(worker, skip) => State(Claim(s.q, worker, skip), s.holders + Claims(s.q, worker, skip))
    case Done(id, n) => State(Finish(s.q, id, Completed), s.holders - {(id, n)})
    case Kill(id, n) => State(Finish(s.q, id, Dead), s.holders - {(id, n)})
    case Retry(id, n, jitterMs) => State(PutBack(s.q, id, n, jitterMs), s.holders - {(id, n)})
    case Release(id, n, jitterMs) => State(PutBack(s.q, id, n, jitterMs), s.holders - {(id, n)})
    case Lose(id, n) => s.(holders := s.holders - {(id, n)})
    case ReapStuck => s.(q := Reap(s.q))
    case Tick(us) => s.(q := s.q.(now := s.q.now + us))
  }

  function RunFrom(s: State, es: seq<Event>): State {
    if es == [] then s else Apply(RunFrom(s, es[..|es| - 1]), es[|es| - 1])
  }

  predicate Valid(s: State, es: seq<Event>) {
    es != [] ==> Valid(s, es[..|es| - 1]) && Enabled(RunFrom(s, es[..|es| - 1]), es[|es| - 1])
  }

  // ---------- What every step keeps ----------

  predicate RowOk(q: Queue, id: nat) {
    id in q.rows ==>
      var row := q.rows[id];
      && id < q.nextId
      && (row.status.InProgress? <==> row.lockedBy.Some?)
      && (row.status.InProgress? <==> row.lockedAt.Some?)
      && (row.status.Pending? ==> row.nextRunAt <= q.now + HELD_RECHECK)
  }

  predicate HolderOk(s: State, id: nat, n: nat) {
    (id, n) in s.holders ==> id in s.q.rows && 1 <= n <= s.q.rows[id].attempts
  }

  /**
   * In every reachable state: a job is in progress exactly when both lock fields are set, every
   * waiting job is due within twenty minutes, and every claim is of a job that was claimed.
   */
  ghost predicate Inv(s: State) {
    && (forall id :: RowOk(s.q, id))
    && (forall id, n :: HolderOk(s, id, n))
  }

  lemma InvStep(s: State, e: Event)
    requires Inv(s) && Enabled(s, e)
    ensures Inv(Apply(s, e))
  {
    var s' := Apply(s, e);
    forall id
      ensures RowOk(s'.q, id)
    {
      assert RowOk(s.q, id);
      match e
      case Retry(_, n, jitterMs) => BackoffIsBounded(n, jitterMs);
      case Release(_, n, jitterMs) => BackoffIsBounded(n, jitterMs);
      case _ =>
    }
    forall id, n
      ensures HolderOk(s', id, n)
    {
      assert HolderOk(s, id, n) && RowOk(s.q, id);
    }
  }

  lemma {:induction false} InvAlways(es: seq<Event>)
    requires Valid(INITIAL, es)
    ensures Inv(RunFrom(INITIAL, es))
  {
    if es != [] {
      InvAlways(es[..|es| - 1]);
      InvStep(RunFrom(INITIAL, es[..|es| - 1]), es[|es| - 1]);
    }
  }

  /** The job is still there, for the same task, with no fewer attempts. */
  predicate Continues(q: Queue, q': Queue, id: nat) {
    && id in q.rows && id in q'.rows
    && q'.rows[id].task == q.rows[id].task
    && q'.rows[id].maxAttempts == q.rows[id].maxAttempts
    && q.rows[id].attempts <= q'.rows[id].attempts
  }

  lemma ContinuesStep(s: State, e: Event, id: nat)
    requires Inv(s) && Enabled(s, e) && id in s.q.rows
    ensures Continues(s.q, Apply(s, e).q, id)
  {
    assert RowOk(s.q, id);
  }

  /** Over any run no enqueued job disappears or changes what it is for, and attempts only grow. */
  lemma {:induction false} JobsPersist(s: State, es: seq<Event>, id: nat)
    requires Inv(s) && Valid(s, es) && id in s.q.rows
    ensures Inv(RunFrom(s, es)) && Continues(s.q, RunFrom(s, es).q, id)
  {
    if es != [] {
      hide Apply, Enabled, Inv;
      var mid := RunFrom(s, es[..|es| - 1]);
      JobsPersist(s, es[..|es| - 1], id);
      InvStep(mid, es[|es| - 1]);
      ContinuesStep(mid, es[|es| - 1], id);
    }
  }

  // ---------- What the steps do to the rows ----------

  /** New jobs wait under the next id: config syncs five seconds, a recheck twenty minutes, the others not at all. */
  lemma EnqueueTells(s: State, e: Event)
    requires e.Enqueue? || e.Recheck?
    ensures var q, q' := s.q, Apply(s, e).q;
            var task := if e.Enqueue? then e.task else ConfigSync(e.guild, e.role);
            var delay := if e.Recheck? then 20 * 60 * SECOND else if task.ConfigSync? then 5 * SECOND else 0;
            if e.Recheck? && exists id :: id in q.rows && q.rows[id].status.Pending? && q.rows[id].task == task
            then q' == q
            else && q'.rows == q.rows[q.nextId := Row(task, Pending, 0, 8, q.now + delay, None, None, None)]
                 && q'.nextId == q.nextId + 1 && q'.now == q.now
  {
    if e.Recheck? {
      var task := ConfigSync(e.guild, e.role);
      forall id | id in s.q.rows && s.q.rows[id].status.Pending? && s.q.rows[id].task == task
        ensures id in PendingCopies(s.q, task)
      {
      }
    }
  }

  /** A resolve ends the job or makes it wait for its delay, whatever became of its lock. */
  lemma ResolveTells(s: State, e: Event)
    requires Inv(s) && Enabled(s, e) && (e.Done? || e.Kill? || e.Retry? || e.Release?)
    ensures var q, q' := s.q, Apply(s, e).q;
            && e.id in q.rows && OnlyRow(q.rows, q'.rows, e.id) && q'.now == q.now
            && (e.Done? ==> EndedAs(q.rows[e.id], q'.rows[e.id], Completed, q.now))
            && (e.Kill? ==> EndedAs(q.rows[e.id], q'.rows[e.id], Dead, q.now))
            && (e.Retry? || e.Release? ==> WaitsAgain(q.rows[e.id], q'.rows[e.id], e.n, e.jitterMs, q.now))
  {
    assert HolderOk(s, e.id, e.n);
    if e.Retry? || e.Release? {
      BackoffTable(e.n, e.jitterMs);
    }
  }

  predicate ResolvesJob(e: Event, id: nat) {
    match e
    case Done(i, _) => i == id
    case Kill(i, _) => i == id
    case Retry(i, _, _) => i == id
    case Release(i, _, _) => i == id
    case _ => false
  }

  lemma WaitingStaysUntilDue(s: State, e: Event, id: nat)
    requires Inv(s) && Enabled(s, e) && !ResolvesJob(e, id)
    requires id in s.q.rows && s.q.rows[id].status.Pending?
    ensures Apply(s, e).q.now >= s.q.now
    ensures s.q.now < s.q.rows[id].nextRunAt ==>
              id in Apply(s, e).q.rows && Apply(s, e).q.rows[id] == s.q.rows[id]
  {
    assert RowOk(s.q, id);
    match e
    case Take(worker, skip) => ClaimTells(s.q, worker, skip);
    case _ =>
  }

  /**
   * No job is handed out before its time: until then nothing changes a waiting job's row, except a
   * resolve by a worker that claimed it earlier and outlived its lock.
   */
  lemma {:induction false} NeverEarly(s: State, es: seq<Event>, id: nat)
    requires Inv(s) && Valid(s, es) && forall e :: e in es ==> !ResolvesJob(e, id)
    requires id in s.q.rows && s.q.rows[id].status.Pending?
    requires RunFrom(s, es).q.now < s.q.rows[id].nextRunAt
    ensures id in RunFrom(s, es).q.rows && RunFrom(s, es).q.rows[id] == s.q.rows[id]
  {
    if es != [] {
      hide Apply, Enabled, Inv;
      var before, e := es[..|es| - 1], es[|es| - 1];
      assert es == before + [e];
      var mid := RunFrom(s, before);
      InvRun(s, before);
      TimeOnlyGrows(s, before, e);
      NeverEarly(s, before, id);
      WaitingStaysUntilDue(mid, e, id);
    }
  }

  lemma TimeOnlyGrows(s: State, es: seq<Event>, e: Event)
    ensures RunFrom(s, es + [e]).q.now >= RunFrom(s, es).q.now
  {
    assert (es + [e])[..|es|] == es;
  }

  lemma {:induction false} InvRun(s: State, es: seq<Event>)
    requires Inv(s) && Valid(s, es)
    ensures Inv(RunFrom(s, es))
  {
    if es != [] {
      hide Apply, Enabled, Inv;
      InvRun(s, es[..|es| - 1]);
      InvStep(RunFrom(s, es[..|es| - 1]), es[|es| - 1]);
    }
  }

  // ---------- Exclusive holders ----------

  /** Every live claim still owns its lock. */
  predicate Owns(s: State, id: nat, n: nat)
    requires (id, n) in s.holders
  {
    && id in s.q.rows
    && s.q.rows[id].status.InProgress?
    && s.q.rows[id].attempts == n
    && s.q.rows[id].lockedBy == Some(s.holders[(id, n)])
  }

  ghost predicate Coherent(s: State) {
    forall id, n :: (id, n) in s.holders ==> Owns(s, id, n)
  }

  /** A reap that takes a lock from a worker still running the job. */
  ghost predicate UnsafeReap(s: State, e: Event) {
    e.ReapStuck? && exists id, n :: (id, n) in s.holders && Stuck(s.q, id)
  }

  /** Two live claims of one job are the same claim. */
  lemma OneHolder(s: State, id: nat, m: nat, n: nat)
    requires Coherent(s) && (id, m) in s.holders && (id, n) in s.holders
    ensures m == n
  {
    assert Owns(s, id, m) && Owns(s, id, n);
  }

  /** One step keeps every live claim in possession exactly when it is not such a reap. */
  lemma CoherentStepIff(s: State, e: Event)
    requires Inv(s) && Coherent(s) && Enabled(s, e)
    ensures Coherent(Apply(s, e)) <==> !UnsafeReap(s, e)
  {
    var s' := Apply(s, e);
    if UnsafeReap(s, e) {
      var id, n :| (id, n) in s.holders && Stuck(s.q, id);
      assert (id, n) in s'.holders && !Owns(s', id, n);
    } else {
      forall id, n | (id, n) in s'.holders
        ensures Owns(s', id, n)
      {
        assert RowOk(s.q, id);
        if (id, n) in s.holders {
          assert Owns(s, id, n);
          match e
          case Done(j, m) => assert Owns(s, j, m);
          case Kill(j, m) => assert Owns(s, j, m);
          case Retry(j, m, _) => assert Owns(s, j, m);
          case Release(j, m, _) => assert Owns(s, j, m);
          case Take(_, skip) => assert id !in Batch(s.q, skip);
          case _ =>
        }
      }
    }
  }

  ghost predicate Safe(s: State, es: seq<Event>) {
    es != [] ==> Safe(s, es[..|es| - 1]) && !UnsafeReap(RunFrom(s, es[..|es| - 1]), es[|es| - 1])
  }

  ghost predicate CoherentThroughout(s: State, es: seq<Event>) {
    Coherent(RunFrom(s, es)) && (es != [] ==> CoherentThroughout(s, es[..|es| - 1]))
  }

  /**
   * Over a whole run: every live claim owns its lock in every state exactly when no lock is reaped
   * while its worker still runs the job.
   */
  lemma {:induction false} CoherentRunIff(s: State, es: seq<Event>)
    requires Inv(s) && Coherent(s) && Valid(s, es)
    ensures Inv(RunFrom(s, es))
    ensures CoherentThroughout(s, es) <==> Safe(s, es)
  {
    if es != [] {
      var before := es[..|es| - 1];
      CoherentRunIff(s, before);
      InvStep(RunFrom(s, before), es[|es| - 1]);
      if CoherentThroughout(s, before) {
        CoherentStepIff(RunFrom(s, before), es[|es| - 1]);
      }
    }
  }

  /** No job has two live claims. */
  ghost predicate Exclusive(s: State) {
    forall id, m, n :: (id, m) in s.holders && (id, n) in s.holders ==> m == n
  }

  /** A claim of a job some live claim is still working on. */
  ghost predicate Doubles(s: State, e: Event) {
    e.Take? && exists id, n :: id in Batch(s.q, e.skip) && (id, n) in s.holders
  }

  /** One step keeps holders exclusive exactly when it does not claim a job still held. */
  lemma ExclusiveStepIff(s: State, e: Event)
    requires Inv(s) && Exclusive(s) && Enabled(s, e)
    ensures Exclusive(Apply(s, e)) <==> !Doubles(s, e)
  {
    if e.Take? {
      ExclusiveTakeIff(s, e.worker, e.skip);
    } else {
      hide Batch, Insert, InsertUnlessQueued, Finish, PutBack, Reap, Inv;
      var s' := Apply(s, e);
      forall id, m, n | (id, m) in s'.holders && (id, n) in s'.holders
        ensures m == n
      {
        assert (id, m) in s.holders && (id, n) in s.holders;
      }
    }
  }

  lemma ClaimsMade(q: Queue, worker: string, skip: set<nat>, id: nat, n: nat)
    ensures (id, n) in Claims(q, worker, skip)
       <==> id in q.rows && id in Batch(q, skip) && n == q.rows[id].attempts + 1
    ensures id in Batch(q, skip) ==> id in q.rows
  {
    hide Below;
    if id in q.rows && id in Batch(q, skip) {
      assert (id, q.rows[id].attempts + 1) in Claims(q, worker, skip);
    }
  }

  lemma ExclusiveTakeIff(s: State, worker: string, skip: set<nat>)
    requires Inv(s) && Exclusive(s)
    ensures Exclusive(Apply(s, Take(worker, skip))) <==> !Doubles(s, Take(worker, skip))
  {
    hide Batch, Claim, Claims;
    var holders := s.holders + Claims(s.q, worker, skip);
    assert Apply(s, Take(worker, skip)).holders == holders;
    if Doubles(s, Take(worker, skip)) {
      var id, n :| id in Batch(s.q, skip) && (id, n) in s.holders;
      ClaimsMade(s.q, worker, skip, id, n);
      ClaimsMade(s.q, worker, skip, id, s.q.rows[id].attempts + 1);
      assert HolderOk(s, id, n);
      assert (id, s.q.rows[id].attempts + 1) in holders && (id, n) in holders;
    } else {
      forall id, m, n | (id, m) in holders && (id, n) in holders
        ensures m == n
      {
        ClaimsMade(s.q, worker, skip, id, m);
        ClaimsMade(s.q, worker, skip, id, n);
      }
    }
  }

  ghost predicate NeverDoubles(s: State, es: seq<Event>) {
    es != [] ==> NeverDoubles(s, es[..|es| - 1]) && !Doubles(RunFrom(s, es[..|es| - 1]), es[|es| - 1])
  }

  ghost predicate ExclusiveThroughout(s: State, es: seq<Event>) {
    Exclusive(RunFrom(s, es)) && (es != [] ==> ExclusiveThroughout(s, es[..|es| - 1]))
  }

  /**
   * Exclusive holders, exactly: no job has two live claims at any moment of a run if and only if the
   * run never claims a job that a live claim is still working on.
   */
  lemma {:induction false} ExclusiveRunIff(s: State, es: seq<Event>)
    requires Inv(s) && Exclusive(s) && Valid(s, es)
    ensures Inv(RunFrom(s, es))
    ensures ExclusiveThroughout(s, es) <==> NeverDoubles(s, es)
  {
    if es != [] {
      hide Apply, Enabled, Inv, Exclusive, Doubles;
      var before := es[..|es| - 1];
      ExclusiveRunIff(s, before);
      InvStep(RunFrom(s, before), es[|es| - 1]);
      if ExclusiveThroughout(s, before) {
        ExclusiveStepIff(RunFrom(s, before), es[|es| - 1]);
      }
    }
  }

  /** Reaping only what nobody runs is enough for that. */
  lemma {:induction false} SafeRunsAreExclusive(s: State, es: seq<Event>)
    requires Inv(s) && Coherent(s) && Valid(s, es) && Safe(s, es)
    ensures ExclusiveThroughout(s, es)
  {
    hide Apply, Enabled, Inv, Coherent, UnsafeReap;
    CoherentRunIff(s, es);
    var last := RunFrom(s, es);
    assert Coherent(last);
    forall id, m, n | (id, m) in last.holders && (id, n) in last.holders
      ensures m == n
    {
      OneHolder(last, id, m, n);
    }
    if es != [] {
      SafeRunsAreExclusive(s, es[..|es| - 1]);
    }
  }

  // ---------- Final outcomes ----------

  predicate Settled(s: State, id: nat) {
    id in s.q.rows && (s.q.rows[id].status.Completed? || s.q.rows[id].status.Dead?)
  }

  predicate SameRow(s: State, s': State, id: nat) {
    id in s.q.rows && id in s'.q.rows && s'.q.rows[id] == s.q.rows[id]
  }

  /** Nobody is left who could resolve the job. */
  ghost predicate Unheld(s: State, id: nat) {
    forall n :: (id, n) !in s.holders
  }

  lemma UnheldStep(s: State, e: Event, id: nat)
    requires Inv(s) && Enabled(s, e) && Settled(s, id) && Unheld(s, id)
    ensures Settled(Apply(s, e), id) && Unheld(Apply(s, e), id)
    ensures SameRow(s, Apply(s, e), id)
  {
    hide Backoff;
    assert RowOk(s.q, id);
  }

  lemma {:induction false} UnheldStaysSettled(s: State, es: seq<Event>, id: nat)
    requires Inv(s) && Valid(s, es) && Settled(s, id) && Unheld(s, id)
    ensures Inv(RunFrom(s, es)) && Settled(RunFrom(s, es), id) && Unheld(RunFrom(s, es), id)
    ensures SameRow(s, RunFrom(s, es), id)
  {
    if es != [] {
      hide Apply, Enabled, Inv, Unheld;
      var mid := RunFrom(s, es[..|es| - 1]);
      UnheldStaysSettled(s, es[..|es| - 1], id);
      InvStep(mid, es[|es| - 1]);
      UnheldStep(mid, es[|es| - 1], id);
    }
  }

  lemma ReleaseRevives(s: State, id: nat, n: nat)
    requires Inv(s) && (id, n) in s.holders
    ensures Valid(s, [Release(id, n, 0)]) && !Settled(RunFrom(s, [Release(id, n, 0)]), id)
  {
    var e: Event := Release(id, n, 0);
    assert HolderOk(s, id, n);
    assert [e][..0] == [];
    assert RunFrom(s, []) == s && Valid(s, []);
    assert RunFrom(s, [e]) == Apply(s, e);
  }

  /**
   * Final outcomes, exactly: a completed or dead job stays so in every continuation if and only if no
   * live claim on it is left; then its row never changes again.
   */
  lemma FinalIff(s: State, id: nat)
    requires Inv(s) && Settled(s, id)
    ensures (forall es :: Valid(s, es) ==> Settled(RunFrom(s, es), id)) <==> Unheld(s, id)
    ensures Unheld(s, id) ==> forall es :: Valid(s, es) ==> SameRow(s, RunFrom(s, es), id)
  {
    hide Apply, Enabled, Inv, Settled, SameRow;
    if Unheld(s, id) {
      forall es | Valid(s, es) {
        UnheldStaysSettled(s, es, id);
      }
    } else {
      var n :| (id, n) in s.holders;
      ReleaseRevives(s, id, n);
    }
  }

  lemma FinalStep(s: State, e: Event, id: nat)
    requires Inv(s) && Coherent(s) && Enabled(s, e)
    requires id in s.q.rows && (s.q.rows[id].status.Completed? || s.q.rows[id].status.Dead?)
    ensures id in Apply(s, e).q.rows && Apply(s, e).q.rows[id] == s.q.rows[id]
  {
    assert RowOk(s.q, id);
    match e
    case Done(j, m) => assert Owns(s, j, m);
    case Kill(j, m) => assert Owns(s, j, m);
    case Retry(j, m, _) => assert Owns(s, j, m);
    case Release(j, m, _) => assert Owns(s, j, m);
    case _ =>
  }

  /** In a safe run a completed or dead job's row never changes again. */
  lemma {:induction false} OutcomesAreFinal(s: State, es: seq<Event>, id: nat)
    requires Inv(s) && Coherent(s) && Valid(s, es) && Safe(s, es)
    requires id in s.q.rows && (s.q.rows[id].status.Completed? || s.q.rows[id].status.Dead?)
    ensures id in RunFrom(s, es).q.rows && RunFrom(s, es).q.rows[id] == s.q.rows[id]
  {
    if es != [] {
      var before := es[..|es| - 1];
      OutcomesAreFinal(s, before, id);
      CoherentRunIff(s, before);
      FinalStep(RunFrom(s, before), es[|es| - 1], id);
    }
  }

  // ---------- Attempt accounting ----------

  /** History functions: how often the job was claimed, reaped and released, and which claims retried it. */
  function ClaimsOf(es: seq<Event>, id: nat): nat {
    if es == [] then 0
    else
      var before, e := es[..|es| - 1], es[|es| - 1];
      ClaimsOf(before, id) + (if e.Take? && id in Batch(RunFrom(INITIAL, before).q, e.skip) then 1 else 0)
  }

  function ReapsOf(es: seq<Event>, id: nat): nat {
    if es == [] then 0
    else
      var before, e := es[..|es| - 1], es[|es| - 1];
      ReapsOf(before, id) + (if e.ReapStuck? && Stuck(RunFrom(INITIAL, before).q, id) then 1 else 0)
  }

  function ReleasesOf(es: seq<Event>, id: nat): nat {
    if es == [] then 0
    else ReleasesOf(es[..|es| - 1], id) + (if es[|es| - 1].Release? && es[|es| - 1].id == id then 1 else 0)
  }

  function RetriedOf(es: seq<Event>, id: nat): set<nat> {
    if es == [] then {}
    else RetriedOf(es[..|es| - 1], id) + (if es[|es| - 1].Retry? && es[|es| - 1].id == id then {es[|es| - 1].n} else {})
  }

  /** Each claim retries at most once, and only with attempts to spare. */
  ghost predicate RetriesOk(s: State, retried: set<nat>, id: nat) {
    forall n :: n in retried ==>
      id in s.q.rows && 1 <= n <= s.q.rows[id].attempts && n < MAX_ATTEMPTS && (id, n) !in s.holders
  }

  /** The claims a job has had, and the one it is waiting for. */
  function Chances(row: Row): nat {
    row.attempts + (if row.status.Pending? then 1 else 0)
  }

  /** Every return to pending is a retry, a reap or a release, and allows one more claim. */
  ghost predicate Balanced(s: State, es: seq<Event>, id: nat) {
    if id in s.q.rows then
      var row := s.q.rows[id];
      && row.maxAttempts == MAX_ATTEMPTS
      && row.attempts == ClaimsOf(es, id)
      && Chances(row) <= 1 + |RetriedOf(es, id)| + ReapsOf(es, id) + ReleasesOf(es, id)
    else ClaimsOf(es, id) == 0
  }

  lemma RetriesStep(s: State, e: Event, retried: set<nat>, id: nat)
    requires Inv(s) && Enabled(s, e) && RetriesOk(s, retried, id)
    requires id in s.q.rows ==> s.q.rows[id].maxAttempts == MAX_ATTEMPTS
    ensures RetriesOk(Apply(s, e), retried + (if e.Retry? && e.id == id then {e.n} else {}), id)
    ensures e.Retry? && e.id == id ==> e.n !in retried
  {
    assert RowOk(s.q, id);
    if e.Retry? && e.id == id {
      assert HolderOk(s, id, e.n);
    }
  }

  /** Only retries, reaps and releases of the job itself give it another chance. */
  lemma ChancesStep(s: State, e: Event, id: nat)
    requires Inv(s) && Enabled(s, e) && id in s.q.rows
    ensures var s' := Apply(s, e);
            && id in s'.q.rows
            && s'.q.rows[id].maxAttempts == s.q.rows[id].maxAttempts
            && s'.q.rows[id].attempts == s.q.rows[id].attempts + (if e.Take? && id in Batch(s.q, e.skip) then 1 else 0)
            && Chances(s'.q.rows[id]) <= Chances(s.q.rows[id])
                 + (if e.Retry? && e.id == id then 1 else 0)
                 + (if e.ReapStuck? && Stuck(s.q, id) then 1 else 0)
                 + (if e.Release? && e.id == id then 1 else 0)
  {
    hide Backoff;
    assert RowOk(s.q, id);
  }

  lemma FreshStep(s: State, e: Event, id: nat)
    requires Inv(s) && Enabled(s, e) && id !in s.q.rows
    ensures var s' := Apply(s, e);
            id in s'.q.rows ==>
              s'.q.rows[id].maxAttempts == MAX_ATTEMPTS && Chances(s'.q.rows[id]) == 1 && s'.q.rows[id].attempts == 0
    ensures e.Take? ==> id !in Batch(s.q, e.skip)
  {
  }

  lemma BalancedStep(es: seq<Event>, id: nat)
    requires es != [] && Valid(INITIAL, es)
    requires var s := RunFrom(INITIAL, es[..|es| - 1]);
             Inv(s) && RetriesOk(s, RetriedOf(es[..|es| - 1], id), id) && Balanced(s, es[..|es| - 1], id)
    ensures Balanced(RunFrom(INITIAL, es), es, id)
  {
    hide Apply, Batch, Stuck, Enabled;
    var before, e := es[..|es| - 1], es[|es| - 1];
    var s := RunFrom(INITIAL, before);
    if id in s.q.rows {
      RetriesStep(s, e, RetriedOf(before, id), id);
      ChancesStep(s, e, id);
    } else {
      FreshStep(s, e, id);
    }
  }

  lemma {:induction false} Accounting(es: seq<Event>, id: nat)
    requires Valid(INITIAL, es)
    ensures Inv(RunFrom(INITIAL, es))
    ensures RetriesOk(RunFrom(INITIAL, es), RetriedOf(es, id), id)
    ensures Balanced(RunFrom(INITIAL, es), es, id)
  {
    InvAlways(es);
    if es != [] {
      var before := es[..|es| - 1];
      Accounting(before, id);
      RetriesStep(RunFrom(INITIAL, before), es[|es| - 1], RetriedOf(before, id), id);
      BalancedStep(es, id);
    }
  }

  lemma {:induction false} SmallSet(s: set<nat>, bound: nat)
    requires forall n :: n in s ==> 1 <= n <= bound
    ensures |s| <= bound
  {
    if bound == 0 {
      assert s == {};
    } else {
      SmallSet(s - {bound}, bound - 1);
    }
  }

  /**
   * In every run, safe or not: `attempts` is the number of claims, and it never exceeds the cap by more
   * than the job was reaped or released. So with finitely many of those, a job is claimed finitely often.
   */
  lemma AttemptsAreBounded(es: seq<Event>, id: nat)
    requires Valid(INITIAL, es) && id in RunFrom(INITIAL, es).q.rows
    ensures RunFrom(INITIAL, es).q.rows[id].attempts == ClaimsOf(es, id)
    ensures ClaimsOf(es, id) <= MAX_ATTEMPTS + ReapsOf(es, id) + ReleasesOf(es, id)
  {
    Accounting(es, id);
    SmallSet(RetriedOf(es, id), MAX_ATTEMPTS - 1);
  }

  /** A step that puts the job back to pending: a reap of its lock, a retry or a release. */
  predicate Returns(s: State, e: Event, id: nat) {
    && id in s.q.rows && !s.q.rows[id].status.Pending?
    && match e
       case ReapStuck => Stuck(s.q, id)
       case Retry(i, _, _) => i == id
       case Release(i, _, _) => i == id
       case _ => false
  }

  function ReturnsOf(es: seq<Event>, id: nat): nat {
    if es == [] then 0
    else ReturnsOf(es[..|es| - 1], id) + (if Returns(RunFrom(INITIAL, es[..|es| - 1]), es[|es| - 1], id) then 1 else 0)
  }

  /** A step that ends the job while it waits: a resolve by a worker whose lock was reaped. */
  predicate Withdraws(s: State, e: Event, id: nat) {
    id in s.q.rows && s.q.rows[id].status.Pending? && (e.Done? || e.Kill?) && e.id == id
  }

  function WithdrawnOf(es: seq<Event>, id: nat): nat {
    if es == [] then 0
    else
      var before, e := es[..|es| - 1], es[|es| - 1];
      WithdrawnOf(before, id) + (if Withdraws(RunFrom(INITIAL, before), e, id) then 1 else 0)
  }

  lemma ReturnsStep(s: State, e: Event, id: nat)
    requires Inv(s) && Enabled(s, e) && id in s.q.rows
    ensures id in Apply(s, e).q.rows
    ensures Chances(Apply(s, e).q.rows[id]) + (if Withdraws(s, e, id) then 1 else 0)
         == Chances(s.q.rows[id]) + (if Returns(s, e, id) then 1 else 0)
  {
    hide Backoff;
    assert RowOk(s.q, id);
  }

  /**
   * How often a job is handed to a worker, in every run: once, and once more for each time it came back
   * to pending, less the hand-outs a stale resolve withdrew and the one it is still waiting for. So a
   * job is processed twice only if it came back.
   */
  lemma HandedOutAsOftenAsReturned(es: seq<Event>, id: nat)
    requires Valid(INITIAL, es) && id in RunFrom(INITIAL, es).q.rows
    ensures ClaimsOf(es, id) + WithdrawnOf(es, id) + (if RunFrom(INITIAL, es).q.rows[id].status.Pending? then 1 else 0)
         == 1 + ReturnsOf(es, id)
  {
    ReturnsBalance(es, id);
    AttemptsAreBounded(es, id);
  }

  lemma {:induction false} ReturnsBalance(es: seq<Event>, id: nat)
    requires Valid(INITIAL, es)
    ensures var s := RunFrom(INITIAL, es);
            if id in s.q.rows then Chances(s.q.rows[id]) + WithdrawnOf(es, id) == 1 + ReturnsOf(es, id)
            else ReturnsOf(es, id) == WithdrawnOf(es, id) == 0
  {
    if es != [] {
      hide Apply, Enabled, Inv, Chances;
      var before, e := es[..|es| - 1], es[|es| - 1];
      var s := RunFrom(INITIAL, before);
      ReturnsBalance(before, id);
      InvAlways(before);
      if id in s.q.rows {
        ReturnsStep(s, e, id);
      } else {
        FreshStep(s, e, id);
      }
    }
  }

  // ---------- No starvation ----------

  /** How often a job may still be claimed if nothing reaps or releases it. */
  function Remaining(row: Row): nat {
    var left: int := row.maxAttempts - row.attempts;
    match row.status
    case Pending => if left > 1 then left else 1
    case InProgress => if left > 0 then left else 0
    case _ => 0
  }

  /** The claims still to come for the jobs with ids below k. */
  function ClaimsAhead(q: Queue, k: nat): nat {
    if k == 0 then 0
    else ClaimsAhead(q, k - 1) + (if k - 1 in q.rows then Remaining(q.rows[k - 1]) else 0)
  }

  function TakenBelow(s: State, e: Event, k: nat): nat {
    if e.Take? then Below(Batch(s.q, e.skip), k) else 0
  }

  function StuckJobs(q: Queue): set<nat> {
    set id | id in q.rows && Stuck(q, id)
  }

  /** The jobs below k that a step gives another claim: those it reaps or releases. */
  function ReturnedBelow(s: State, e: Event, k: nat): nat {
    match e
    case ReapStuck => Below(StuckJobs(s.q), k)
    case Release(id, _, _) => if id < k then 1 else 0
    case _ => 0
  }

  lemma OneJobAhead(s: State, e: Event, j: nat)
    requires Inv(s) && Coherent(s) && Enabled(s, e) && !UnsafeReap(s, e) && j < s.q.nextId
    ensures var s' := Apply(s, e);
            (j in s'.q.rows <==> j in s.q.rows) &&
            (j in s.q.rows ==>
               Remaining(s'.q.rows[j])
                 + (if e.Take? && j in Batch(s.q, e.skip) then 1 else 0)
               <= Remaining(s.q.rows[j])
                 + (if e.ReapStuck? && Stuck(s.q, j) then 1 else 0)
                 + (if e.Release? && e.id == j then 1 else 0))
  {
    hide Backoff;
    assert RowOk(s.q, j);
    match e
    case Done(i, m) => assert Owns(s, i, m);
    case Kill(i, m) => assert Owns(s, i, m);
    case Retry(i, m, _) => assert Owns(s, i, m);
    case Release(i, m, _) => assert Owns(s, i, m);
    case _ =>
  }

  lemma {:induction false} StepAhead(s: State, e: Event, k: nat)
    requires Inv(s) && Coherent(s) && Enabled(s, e) && !UnsafeReap(s, e) && k <= s.q.nextId
    ensures ClaimsAhead(Apply(s, e).q, k) + TakenBelow(s, e, k) <= ClaimsAhead(s.q, k) + ReturnedBelow(s, e, k)
  {
    if k > 0 {
      hide Apply, Remaining, Enabled;
      StepAhead(s, e, k - 1);
      OneJobAhead(s, e, k - 1);
    }
  }

  predicate Waiting(s: State, k: nat) {
    Eligible(s.q, k)
  }

  lemma WaitingStep(s: State, e: Event, k: nat)
    requires Inv(s) && Coherent(s) && Enabled(s, e) && !UnsafeReap(s, e) && Waiting(s, k)
    requires e.Take? ==> k !in Batch(s.q, e.skip)
    ensures Waiting(Apply(s, e), k)
    ensures e.Take? && k !in e.skip ==> TakenBelow(s, e, k) == BATCH_SIZE
  {
    assert RowOk(s.q, k);
    match e
    case Take(_, skip) => BatchIsFirstEight(s.q, skip, k);
    case Done(j, m) => assert Owns(s, j, m);
    case Kill(j, m) => assert Owns(s, j, m);
    case Retry(j, m, _) => assert Owns(s, j, m);
    case Release(j, m, _) => assert Owns(s, j, m);
    case _ =>
  }

  /** k was in none of the batches claimed during the run. */
  predicate NeverTaken(s: State, es: seq<Event>, k: nat) {
    es != [] ==>
      var before, e := es[..|es| - 1], es[|es| - 1];
      NeverTaken(s, before, k) && (e.Take? ==> k !in Batch(RunFrom(s, before).q, e.skip))
  }

  /** The claims in a run made while no other transaction had k's row locked. */
  function Turns(es: seq<Event>, k: nat): nat {
    if es == [] then 0
    else Turns(es[..|es| - 1], k) + (if es[|es| - 1].Take? && k !in es[|es| - 1].skip then 1 else 0)
  }

  /** How many reaps and releases of jobs below k happened. */
  function ReturnsBelow(s: State, es: seq<Event>, k: nat): nat {
    if es == [] then 0
    else ReturnsBelow(s, es[..|es| - 1], k) + ReturnedBelow(RunFrom(s, es[..|es| - 1]), es[|es| - 1], k)
  }

  lemma {:induction false} PassedOver(s: State, es: seq<Event>, k: nat)
    requires Inv(s) && Coherent(s) && Valid(s, es) && Safe(s, es)
    requires Waiting(s, k) && NeverTaken(s, es, k)
    ensures Inv(RunFrom(s, es)) && Coherent(RunFrom(s, es)) && Waiting(RunFrom(s, es), k)
    ensures BATCH_SIZE * Turns(es, k) + ClaimsAhead(RunFrom(s, es).q, k) <= ClaimsAhead(s.q, k) + ReturnsBelow(s, es, k)
  {
    if es != [] {
      hide Apply, Enabled, Waiting, UnsafeReap, ReturnedBelow, TakenBelow, Coherent, Inv;
      var before, e := es[..|es| - 1], es[|es| - 1];
      var mid := RunFrom(s, before);
      PassedOver(s, before, k);
      InvStep(mid, e);
      CoherentStepIff(mid, e);
      WaitingStep(mid, e, k);
      WaitingIsKnown(mid, k);
      StepAhead(mid, e, k);
    }
  }

  lemma WaitingIsKnown(s: State, k: nat)
    requires Inv(s) && Waiting(s, k)
    ensures k < s.q.nextId
  {
    assert RowOk(s.q, k);
  }

  /**
   * No starvation: a due job k is claimed once the claims made in a safe run outnumber an eighth of the
   * claims the jobs before it can still use up, counting one more for each time one of those is
   * reaped or released.
   */
  lemma NoStarvation(s: State, es: seq<Event>, k: nat)
    requires Inv(s) && Coherent(s) && Valid(s, es) && Safe(s, es) && Waiting(s, k)
    requires BATCH_SIZE * Turns(es, k) > ClaimsAhead(s.q, k) + ReturnsBelow(s, es, k)
    ensures !NeverTaken(s, es, k)
  {
    if NeverTaken(s, es, k) {
      PassedOver(s, es, k);
    }
  }

  // ---------- Held writes ----------

  /** After a recheck is queued for a link, one is waiting and is due within twenty minutes. */
  lemma RecheckIsDueSoon(s: State, guild: string, role: string)
    requires Inv(s)
    ensures var s' := Apply(s, Recheck(guild, role));
            exists id :: id in PendingCopies(s'.q, ConfigSync(guild, role))
                      && s'.q.rows[id].nextRunAt <= s'.q.now + HELD_RECHECK
  {
    var s' := Apply(s, Recheck(guild, role));
    InvStep(s, Recheck(guild, role));
    var task := ConfigSync(guild, role);
    if PendingCopies(s.q, task) == {} {
      assert s.q.nextId in PendingCopies(s'.q, task);
      assert RowOk(s'.q, s.q.nextId);
    } else {
      var id :| id in PendingCopies(s.q, task);
      assert id in PendingCopies(s'.q, task) && RowOk(s'.q, id);
    }
  }

  // ---------- Why safety is needed ----------

  lemma RunSnoc(s: State, es: seq<Event>, e: Event)
    ensures RunFrom(s, es + [e]) == Apply(RunFrom(s, es), e)
    ensures Valid(s, es + [e]) <==> Valid(s, es) && Enabled(RunFrom(s, es), e)
  {
    assert (es + [e])[..|es|] == es;
  }

  const SOME_SYNC := PlayerSync("1")

  /** A first worker outlives its lock; after the reap a second one claims the same job. */
  const REAPED_RUN: seq<Event> :=
    [Enqueue(SOME_SYNC)] + [Take("first", {})] + [Tick(LATER)] + [ReapStuck] + [Take("second", {})]

  const LATER: int := 46 * 60 * 1_000_000

  function OneJob(row: Row, now: int, holders: map<(nat, nat), string>): State {
    State(Queue(map[1 := row], 2, now), holders)
  }

  const QUEUED := Row(SOME_SYNC, Pending, 0, 8, 0, None, None, None)
  const CLAIMED := Row(SOME_SYNC, InProgress, 1, 8, 0, Some("first"), Some(0), None)
  const REAPED := Row(SOME_SYNC, Pending, 1, 8, LATER, None, None, None)
  const RECLAIMED := Row(SOME_SYNC, InProgress, 2, 8, LATER, Some("second"), Some(LATER), None)

  lemma BatchOfTheOneJob(row: Row, now: int)
    requires row.status.Pending? && row.nextRunAt <= now
    ensures Batch(Queue(map[1 := row], 2, now), {}) == {1}
  {
    assert Candidates(Queue(map[1 := row], 2, now), {}) == {1};
    assert Below({1}, 0) == 0;
    assert Below({1}, 1) == 0;
  }

  lemma TakesTheOneJob(row: Row, now: int, holders: map<(nat, nat), string>, worker: string)
    requires row.status.Pending? && row.nextRunAt <= now
    ensures Apply(OneJob(row, now, holders), Take(worker, {}))
         == OneJob(ClaimRow(row, worker, now), now, holders[(1, row.attempts + 1) := worker])
  {
    hide Batch, ClaimRow;
    BatchOfTheOneJob(row, now);
    var q := Queue(map[1 := row], 2, now);
    assert Claim(q, worker, {}).rows == map[1 := ClaimRow(row, worker, now)];
    assert Claims(q, worker, {}) == map[(1, row.attempts + 1) := worker];
    assert holders + map[(1, row.attempts + 1) := worker] == holders[(1, row.attempts + 1) := worker];
  }

  lemma ReapsTheOneJob(holders: map<(nat, nat), string>)
    ensures var s := Apply(OneJob(CLAIMED, 0, holders), Tick(LATER));
            s.holders == holders && Apply(s, ReapStuck) == OneJob(REAPED, LATER, holders)
  {
    var s := Apply(OneJob(CLAIMED, 0, holders), Tick(LATER));
    assert Stuck(s.q, 1);
    assert Reap(s.q).rows == map[1 := REAPED];
  }

  lemma FirstStep()
    ensures var e1: seq<Event> := [Enqueue(SOME_SYNC)];
            RunFrom(INITIAL, e1) == OneJob(QUEUED, 0, map[]) && Valid(INITIAL, e1)
  {
    var e1: seq<Event> := [Enqueue(SOME_SYNC)];
    RunSnoc(INITIAL, [], Enqueue(SOME_SYNC));
    assert [] + e1 == e1;
    assert RunFrom(INITIAL, []) == INITIAL;
    assert map[][1 := QUEUED] == map[1 := QUEUED];
  }

  lemma ReapedRun()
    ensures Valid(INITIAL, REAPED_RUN)
    ensures RunFrom(INITIAL, REAPED_RUN) == OneJob(RECLAIMED, LATER, map[(1, 1) := "first", (1, 2) := "second"])
  {
    hide Apply, RunFrom, Valid;
    FirstStep();
    var e1: seq<Event> := [Enqueue(SOME_SYNC)];
    RunSnoc(INITIAL, e1, Take("first", {}));
    TakesTheOneJob(QUEUED, 0, map[], "first");
    var e2 := e1 + [Take("first", {})];
    assert RunFrom(INITIAL, e2) == OneJob(CLAIMED, 0, map[(1, 1) := "first"]);
    RunSnoc(INITIAL, e2, Tick(LATER));
    var e3 := e2 + [Tick(LATER)];
    RunSnoc(INITIAL, e3, ReapStuck);
    ReapsTheOneJob(map[(1, 1) := "first"]);
    var e4 := e3 + [ReapStuck];
    assert RunFrom(INITIAL, e4) == OneJob(REAPED, LATER, map[(1, 1) := "first"]);
    RunSnoc(INITIAL, e4, Take("second", {}));
    TakesTheOneJob(REAPED, LATER, map[(1, 1) := "first"], "second");
  }

  /**
   * A safe run that processes a job twice: the first worker finished, but its `complete` failed, so
   * the lock is reaped and the job handed out again.
   */
  const LOST_COMPLETION: seq<Event> :=
    [Enqueue(SOME_SYNC)] + [Take("first", {})] + [Lose(1, 1)] + [Tick(LATER)] + [ReapStuck] + [Take("second", {})]

  lemma FinishedJobRunsAgain()
    ensures Valid(INITIAL, LOST_COMPLETION) && Safe(INITIAL, LOST_COMPLETION)
    ensures RunFrom(INITIAL, LOST_COMPLETION) == OneJob(RECLAIMED, LATER, map[(1, 2) := "second"])
  {
    hide Apply, RunFrom, Valid, Safe, UnsafeReap;
    FirstStep();
    var e1: seq<Event> := [Enqueue(SOME_SYNC)];
    SafeSnoc(INITIAL, [], Enqueue(SOME_SYNC));
    assert [] + e1 == e1;
    RunSnoc(INITIAL, e1, Take("first", {}));
    SafeSnoc(INITIAL, e1, Take("first", {}));
    TakesTheOneJob(QUEUED, 0, map[], "first");
    var e2 := e1 + [Take("first", {})];
    assert RunFrom(INITIAL, e2) == OneJob(CLAIMED, 0, map[(1, 1) := "first"]);
    RunSnoc(INITIAL, e2, Lose(1, 1));
    SafeSnoc(INITIAL, e2, Lose(1, 1));
    LosesTheOneJob();
    var e3 := e2 + [Lose(1, 1)];
    RunSnoc(INITIAL, e3, Tick(LATER));
    SafeSnoc(INITIAL, e3, Tick(LATER));
    var e4 := e3 + [Tick(LATER)];
    RunSnoc(INITIAL, e4, ReapStuck);
    SafeSnoc(INITIAL, e4, ReapStuck);
    ReapsTheOneJob(map[]);
    var e5 := e4 + [ReapStuck];
    assert RunFrom(INITIAL, e5) == OneJob(REAPED, LATER, map[]);
    RunSnoc(INITIAL, e5, Take("second", {}));
    SafeSnoc(INITIAL, e5, Take("second", {}));
    TakesTheOneJob(REAPED, LATER, map[], "second");
  }

  lemma SafeSnoc(s: State, es: seq<Event>, e: Event)
    ensures Safe(s, es + [e]) <==> Safe(s, es) && !UnsafeReap(RunFrom(s, es), e)
    ensures Safe(s, []) && (!e.ReapStuck? || RunFrom(s, es).holders == map[] ==> !UnsafeReap(RunFrom(s, es), e))
  {
    assert (es + [e])[..|es|] == es;
  }

  lemma LosesTheOneJob()
    ensures var s := OneJob(CLAIMED, 0, map[(1, 1) := "first"]);
            Enabled(s, Lose(1, 1)) && Apply(s, Lose(1, 1)) == OneJob(CLAIMED, 0, map[])
  {
    assert map[(1, 1) := "first"] - {(1, 1)} == map[];
  }

  /**
   * Without safety outcomes are not final: the first worker completes the job, then the second one,
   * still running it, fails and puts it back to pending.
   */
  lemma StaleResolveRevives()
    ensures var done := REAPED_RUN + [Done(1, 1)];
            var revived := done + [Retry(1, 2, 0)];
            && Valid(INITIAL, revived)
            && 1 in RunFrom(INITIAL, done).q.rows && RunFrom(INITIAL, done).q.rows[1].status.Completed?
            && 1 in RunFrom(INITIAL, revived).q.rows && RunFrom(INITIAL, revived).q.rows[1].status.Pending?
  {
    hide RunFrom, Valid, Pow2;
    ReapedRun();
    RunSnoc(INITIAL, REAPED_RUN, Done(1, 1));
    RunSnoc(INITIAL, REAPED_RUN + [Done(1, 1)], Retry(1, 2, 0));
  }
}
