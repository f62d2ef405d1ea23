/**
 * One iteration of the worker loop: reap now and then, claim a batch, resolve every claimed job. Other
 * workers, reapers and enqueuers run any steps of theirs before each statement.
 */
module JobWorker {
  import opened Wrappers
  import opened Errors
  import opened Jobs
  import opened JobProtocol

  datatype JobError = Terminal | Retryable

  /** A link that is gone or full stays so; anything else may pass. */
  function Classify(e: AppError): JobError {
    match e
    case RoleLinkNotFound => Terminal
    case UserLimitReached(_) => Terminal
    case _ => Retryable
  }

  /** How dispatching a job ended. An unreadable payload fails before any work is done. */
  datatype Verdict = Finished | BadPayload | Failed(e: AppError)

  /** What the environment decides about one claimed job. */
  datatype Fate = Fate(verdict: Verdict, stopping: bool, statementFails: bool, jitterMs: nat)

  /** A dispatch nothing is said about crashed the worker. */
  function FateOf(fates: map<nat, Fate>, j: nat): Fate {
    if j in fates then fates[j] else Fate(Finished, false, true, 0)
  }

  /** The step that ends the worker's dealings with a job it claimed as `row`. */
  function Resolution(id: nat, row: Row, fate: Fate): Event {
    var n := row.attempts;
    if fate.statementFails then Lose(id, n)
    else if fate.stopping then Release(id, n, fate.jitterMs)
    else
      match fate.verdict
      case Finished => Done(id, n)
      case BadPayload => Kill(id, n)
      case Failed(e) =>
        if Classify(e).Terminal? || n >= row.maxAttempts then Kill(id, n) else Retry(id, n, fate.jitterMs)
  }

  /** Failing for a reason that may pass: another attempt while some are left, counted from the claim. */
  predicate RetriedOrDead(row: Row, row': Row, job: Row, jitterMs: nat, now: int) {
    if job.attempts < job.maxAttempts then WaitsAgain(row, row', job.attempts, jitterMs, now)
    else EndedAs(row, row', Dead, now)
  }

  /**
   * What a worker makes of a claimed job: the row before and after, for every way its dispatch can end.
   * A failed statement leaves the row, a stopping worker puts the job back whatever its attempts.
   */
  predicate DecidedBy(row: Row, row': Row, job: Row, fate: Fate, now: int) {
    if fate.statementFails then row' == row
    else if fate.stopping then WaitsAgain(row, row', job.attempts, fate.jitterMs, now)
    else
      match fate.verdict
      case Finished => EndedAs(row, row', Completed, now)
      case BadPayload => EndedAs(row, row', Dead, now)
      case Failed(RoleLinkNotFound) => EndedAs(row, row', Dead, now)
      case Failed(UserLimitReached(_)) => EndedAs(row, row', Dead, now)
      case Failed(RoleLinkDisabled) => RetriedOrDead(row, row', job, fate.jitterMs, now)
      case Failed(RemovalHeld) => RetriedOrDead(row, row', job, fate.jitterMs, now)
      case Failed(OtherError) => RetriedOrDead(row, row', job, fate.jitterMs, now)
  }

  /** The resolving step of an iteration does that to the row, and touches no other. */
  lemma ResolutionDecides(s: State, j: nat, job: Row, fate: Fate)
    requires Inv(s) && (j, job.attempts) in s.holders && j in s.q.rows && fate.jitterMs < 1000
    requires s.q.rows[j].maxAttempts == job.maxAttempts
    ensures var q' := Apply(s, Resolution(j, job, fate)).q;
            OnlyRow(s.q.rows, q'.rows, j) && DecidedBy(s.q.rows[j], q'.rows[j], job, fate, s.q.now)
  {
    if !fate.statementFails {
      ResolveTells(s, Resolution(j, job, fate));
    }
  }

  // ---------- The others ----------

  /** Claims, each given by its job and the attempts it returned. */
  type ClaimSet = set<(nat, nat)>

  /** The claim a step resolves. */
  function Resolved(e: Event): Option<(nat, nat)> {
    match e
    case Done(id, n) => Some((id, n))
    case Kill(id, n) => Some((id, n))
    case Retry(id, n, _) => Some((id, n))
    case Release(id, n, _) => Some((id, n))
    case Lose(id, n) => Some((id, n))
    case _ => None
  }

  /** A step somebody else can take: it is possible, and it resolves none of these claims. */
  predicate Foreign(s: State, e: Event, mine: ClaimSet) {
    Enabled(s, e) && (Resolved(e).Some? ==> Resolved(e).value !in mine)
  }

  /** Of the steps others attempt one after the other, those they can take. */
  function Permitted(s: State, es: seq<Event>, mine: ClaimSet): seq<Event> {
    if es == [] then []
    else
      var done, e := Permitted(s, es[..|es| - 1], mine), es[|es| - 1];
      if Foreign(RunFrom(s, done), e, mine) then done + [e] else done
  }

  predicate AllForeign(s: State, es: seq<Event>, mine: ClaimSet) {
    es != [] ==> AllForeign(s, es[..|es| - 1], mine) && Foreign(RunFrom(s, es[..|es| - 1]), es[|es| - 1], mine)
  }

  /** Any run of theirs is permitted whole. */
  lemma {:induction false} PermittedIsEverything(s: State, es: seq<Event>, mine: ClaimSet)
    ensures Valid(s, Permitted(s, es, mine)) && AllForeign(s, Permitted(s, es, mine), mine)
    ensures AllForeign(s, es, mine) ==> Permitted(s, es, mine) == es
  {
    if es != [] {
      hide Enabled, Apply, RunFrom, Valid, AllForeign;
      var before, e := es[..|es| - 1], es[|es| - 1];
      PermittedIsEverything(s, before, mine);
      var done := Permitted(s, before, mine);
      RunSnoc(s, done, e);
      ForeignSnoc(s, done, e, mine);
      ForeignSnoc(s, before, e, mine);
      assert es == before + [e];
    }
  }

  lemma ForeignSnoc(s: State, es: seq<Event>, e: Event, mine: ClaimSet)
    ensures AllForeign(s, es + [e], mine) <==> AllForeign(s, es, mine) && Foreign(RunFrom(s, es), e, mine)
  {
    assert (es + [e])[..|es|] == es;
  }

  /** One statement of the worker, and what the others did before it. */
  datatype Round = Round(theirs: seq<Event>, mine: Event)

  /** The steps of a list of rounds. */
  function Flat(rounds: seq<Round>): seq<Event> {
    if rounds == [] then []
    else
      var last := rounds[|rounds| - 1];
      Flat(rounds[..|rounds| - 1]) + last.theirs + [last.mine]
  }

  /** Before each statement the others took all of the steps in `others` that they could. */
  predicate Interleaved(start: State, rounds: seq<Round>, others: nat -> seq<Event>, from: nat, mine: ClaimSet) {
    forall k :: 0 <= k < |rounds| ==>
      rounds[k].theirs == Permitted(RunFrom(start, Flat(rounds[..k])), others(from + k), mine)
  }

  lemma {:induction false} RunConcat(s: State, es: seq<Event>, fs: seq<Event>)
    ensures RunFrom(s, es + fs) == RunFrom(RunFrom(s, es), fs)
    ensures Valid(s, es + fs) <==> Valid(s, es) && Valid(RunFrom(s, es), fs)
  {
    if fs == [] {
      assert es + fs == es;
    } else {
      hide Enabled, Apply;
      var before, f := fs[..|fs| - 1], fs[|fs| - 1];
      RunConcat(s, es, before);
      RunSnoc(s, es + before, f);
      RunSnoc(RunFrom(s, es), before, f);
      assert fs == before + [f] && es + fs == es + before + [f];
    }
  }

  /** One more round extends the run by the others' steps and the worker's. */
  lemma RoundsGrow(
      start: State, rounds: seq<Round>, others: nat -> seq<Event>, from: nat, mine: ClaimSet, e: Event)
    requires Interleaved(start, rounds, others, from, mine) && Valid(start, Flat(rounds))
    requires var before := RunFrom(start, Flat(rounds));
             Enabled(RunFrom(before, Permitted(before, others(from + |rounds|), mine)), e)
    ensures var before := RunFrom(start, Flat(rounds));
            var theirs := Permitted(before, others(from + |rounds|), mine);
            var grown := rounds + [Round(theirs, e)];
            && Interleaved(start, grown, others, from, mine)
            && Flat(grown) == Flat(rounds) + theirs + [e]
            && Valid(start, Flat(grown))
            && RunFrom(start, Flat(rounds) + theirs) == RunFrom(before, theirs)
            && RunFrom(start, Flat(grown)) == Apply(RunFrom(before, theirs), e)
  {
    hide Apply, Enabled, Permitted, Valid, RunFrom;
    var before := RunFrom(start, Flat(rounds));
    var theirs := Permitted(before, others(from + |rounds|), mine);
    var grown := rounds + [Round(theirs, e)];
    forall k | 0 <= k < |grown|
      ensures grown[k].theirs == Permitted(RunFrom(start, Flat(grown[..k])), others(from + k), mine)
    {
      assert grown[..k] == rounds[..k];
      assert rounds[..|rounds|] == rounds;
    }
    assert grown[..|rounds|] == rounds;
    PermittedIsEverything(before, others(from + |rounds|), mine);
    RunConcat(start, Flat(rounds), theirs);
    RunSnoc(start, Flat(rounds) + theirs, e);
  }

  lemma NoRounds(start: State, others: nat -> seq<Event>, from: nat, mine: ClaimSet)
    ensures Interleaved(start, [], others, from, mine) && Flat([]) == []
    ensures Valid(start, []) && RunFrom(start, []) == start
  {
  }

  // ---------- What stays the worker's ----------

  /** The claim that returned `row` is still to be resolved. */
  predicate Held(s: State, j: nat, row: Row) {
    && (j, row.attempts) in s.holders
    && j in s.q.rows && s.q.rows[j].maxAttempts == row.maxAttempts
  }

  lemma ForeignStepKeepsHeld(s: State, e: Event, j: nat, row: Row, mine: ClaimSet)
    requires Inv(s) && Foreign(s, e, mine) && Held(s, j, row) && (j, row.attempts) in mine
    ensures Held(Apply(s, e), j, row)
  {
    ContinuesStep(s, e, j);
  }

  /** Others may reap the lock, resolve the row or claim it again, but not take the claim itself. */
  lemma {:induction false} ForeignRunKeepsHeld(s: State, es: seq<Event>, j: nat, row: Row, mine: ClaimSet)
    requires Inv(s) && Valid(s, es) && AllForeign(s, es, mine) && Held(s, j, row) && (j, row.attempts) in mine
    ensures Held(RunFrom(s, es), j, row)
  {
    if es != [] {
      hide Apply, Enabled, Inv, Foreign, Held;
      var before := es[..|es| - 1];
      ForeignRunKeepsHeld(s, before, j, row, mine);
      InvRun(s, before);
      ForeignStepKeepsHeld(RunFrom(s, before), es[|es| - 1], j, row, mine);
    }
  }

  lemma OwnStepKeepsHeld(s: State, j: nat, row: Row, fate: Fate, k: nat, other: Row)
    requires Inv(s) && Enabled(s, Resolution(j, row, fate)) && Held(s, k, other) && k != j
    ensures Held(Apply(s, Resolution(j, row, fate)), k, other)
  {
    ContinuesStep(s, Resolution(j, row, fate), k);
  }

  predicate AllHeld(s: State, jobs: set<nat>, claimed: map<nat, Row>) {
    forall j :: j in jobs ==> j in claimed && Held(s, j, claimed[j])
  }

  lemma TheirsKeepHeld(s: State, attempted: seq<Event>, jobs: set<nat>, claimed: map<nat, Row>)
    requires Inv(s) && AllHeld(s, jobs, claimed)
    ensures var s' := RunFrom(s, Permitted(s, attempted, ClaimSetOf(claimed)));
            Inv(s') && AllHeld(s', jobs, claimed)
  {
    hide Held, Inv, RunFrom, Permitted, Valid, AllForeign;
    var theirs := Permitted(s, attempted, ClaimSetOf(claimed));
    PermittedIsEverything(s, attempted, ClaimSetOf(claimed));
    InvRun(s, theirs);
    forall j | j in jobs
      ensures Held(RunFrom(s, theirs), j, claimed[j])
    {
      ForeignRunKeepsHeld(s, theirs, j, claimed[j], ClaimSetOf(claimed));
    }
  }

  lemma HeldOne(s: State, j: nat, jobs: set<nat>, claimed: map<nat, Row>)
    requires AllHeld(s, jobs, claimed) && j in jobs
    ensures j in claimed && Held(s, j, claimed[j])
  {
  }

  lemma OwnKeepsHeld(s: State, j: nat, fate: Fate, jobs: set<nat>, claimed: map<nat, Row>)
    requires Inv(s) && AllHeld(s, jobs, claimed) && j in jobs && fate.jitterMs < 1000
    ensures var e := Resolution(j, claimed[j], fate);
            Enabled(s, e) && Inv(Apply(s, e)) && AllHeld(Apply(s, e), jobs - {j}, claimed)
  {
    hide Held, Inv, Apply, Enabled, Resolution;
    ResolutionIsEnabled(s, j, claimed[j], fate);
    InvStep(s, Resolution(j, claimed[j], fate));
    forall i | i in jobs - {j}
      ensures Held(Apply(s, Resolution(j, claimed[j], fate)), i, claimed[i])
    {
      OwnStepKeepsHeld(s, j, claimed[j], fate, i, claimed[i]);
    }
  }

  lemma ResolutionIsEnabled(s: State, j: nat, row: Row, fate: Fate)
    requires Held(s, j, row) && fate.jitterMs < 1000
    ensures Enabled(s, Resolution(j, row, fate))
  {
  }

  /** What a claim hands out is held by the claimer. */
  lemma ClaimedAreHeld(s: State, worker: string, skip: set<nat>)
    ensures Enabled(s, Take(worker, skip))
    ensures var s' := Apply(s, Take(worker, skip));
            && s'.q == Claim(s.q, worker, skip)
            && forall j :: j in Batch(s.q, skip) ==>
                 && j in s.q.rows && j in s'.q.rows
                 && s'.q.rows[j] == ClaimRow(s.q.rows[j], worker, s.q.now)
                 && Held(s', j, s'.q.rows[j])
  {
    forall j | j in Batch(s.q, skip)
      ensures (j, s.q.rows[j].attempts + 1) in Claims(s.q, worker, skip)
    {
    }
  }

  function ClaimSetOf(claimed: map<nat, Row>): ClaimSet {
    set j | j in claimed :: (j, claimed[j].attempts)
  }

  /** What a claim of the ready jobs returns. */
  function Returned(q: Queue, worker: string, skip: set<nat>): map<nat, Row> {
    map j | j in q.rows && j in Batch(q, skip) :: ClaimRow(q.rows[j], worker, q.now)
  }

  // ---------- The loop ----------

  /** The jobs table, and the claims all workers together are still to resolve. */
  class Fleet {
    const table: JobTable
    var holders: map<(nat, nat), string>

    constructor (table: JobTable)
      ensures this.table == table && holders == map[]
    {
      this.table, holders := table, map[];
    }

    function Value(): State
      reads this, table
    {
      State(table.Value(), holders)
    }

    /** Any step of the protocol, as the statements that carry it out. */
    method Perform(e: Event)
      requires Enabled(Value(), e)
      modifies this, table
      ensures Value() == Apply(old(Value()), e)
    {
      match e {
        case Enqueue(PlayerSync(d)) => table.EnqueuePlayerSync(d);
        case Enqueue(ConfigSync(guild, role)) => table.EnqueueConfigSync(guild, role);
        case Enqueue(AccountSync(did)) => table.EnqueueAccountSync(did);
        case Recheck(guild, role) => table.EnqueueConfigSyncUnlessQueued(guild, role);
        case Take(worker, skip) => var _ := ClaimFor(worker, skip);
        case Done(id, n) =>
          table.Complete(id);
          Forget(id, n);
        case Kill(id, n) =>
          table.FailDead(id);
          Forget(id, n);
        case Retry(id, n, jitterMs) =>
          table.FailRetry(id, n, jitterMs);
          Forget(id, n);
        case Release(id, n, jitterMs) =>
          table.FailRetry(id, n, jitterMs);
          Forget(id, n);
        case Lose(id, n) => Forget(id, n);
        case ReapStuck => var _ := table.ReapStuck();
        case Tick(us) => table.now := table.now + us;
      }
    }

    method ClaimFor(worker: string, skip: set<nat>) returns (claimed: map<nat, Row>)
      modifies this, table
      ensures Value() == Apply(old(Value()), Take(worker, skip))
      ensures claimed == Returned(old(Value()).q, worker, skip)
    {
      hide Batch, Claim, Apply, Claims, Returned;
      ghost var s := Value();
      TakeApplies(s, worker, skip);
      claimed := table.ClaimBatch(worker, skip);
      assert table.rows == table.Value().rows;
      ClaimedRows(s.q, worker, skip, claimed);
      var entries := EntriesOf(claimed, worker);
      holders := holders + entries;
    }

    method Forget(id: nat, n: nat)
      modifies this`holders
      ensures holders == old(holders) - {(id, n)}
    {
      holders := holders - {(id, n)};
    }

    /** The others run: whatever they attempt, as far as they can. */
    method Meanwhile(attempted: seq<Event>, mine: ClaimSet) returns (ghost done: seq<Event>)
      modifies this, table
      ensures done == Permitted(old(Value()), attempted, mine)
      ensures Value() == RunFrom(old(Value()), done)
    {
      hide Apply, Foreign, RunFrom;
      ghost var start := Value();
      done := [];
      StartsPermitted(start, mine);
      for k := 0 to |attempted|
        invariant done == Permitted(start, attempted[..k], mine)
        invariant Value() == RunFrom(start, done)
      {
        assert attempted[..k + 1][..k] == attempted[..k];
        if Foreign(Value(), attempted[k], mine) {
          RunSnoc(start, done, attempted[k]);
          ForeignIsEnabled(Value(), attempted[k], mine);
          Perform(attempted[k]);
          done := done + [attempted[k]];
        }
      }
      assert attempted[..|attempted|] == attempted;
    }
  }

  function EntriesOf(claimed: map<nat, Row>, worker: string): map<(nat, nat), string> {
    map j | j in claimed :: (j, claimed[j].attempts) := worker
  }

  lemma TakeApplies(s: State, worker: string, skip: set<nat>)
    ensures Apply(s, Take(worker, skip)) == State(Claim(s.q, worker, skip), s.holders + Claims(s.q, worker, skip))
  {
  }

  /** What a claim returns, and the entries it makes. */
  lemma ClaimedRows(q: Queue, worker: string, skip: set<nat>, claimed: map<nat, Row>)
    requires claimed.Keys == Batch(q, skip)
    requires var rows := Claim(q, worker, skip).rows; forall j :: j in claimed ==> j in rows && claimed[j] == rows[j]
    ensures claimed == Returned(q, worker, skip)
    ensures Claims(q, worker, skip) == EntriesOf(claimed, worker)
  {
    hide Batch;
    assert forall j :: j in claimed ==> j in q.rows by { BatchIsKnown(q, skip); }
    assert forall j :: j in claimed ==> claimed[j] == ClaimRow(q.rows[j], worker, q.now);
    assert forall j :: j in claimed ==> claimed[j].attempts == q.rows[j].attempts + 1;
    forall c
      ensures c in Claims(q, worker, skip) <==> c in EntriesOf(claimed, worker)
    {
      assert c in Claims(q, worker, skip) ==> c.0 in claimed;
    }
  }

  lemma BatchIsKnown(q: Queue, skip: set<nat>)
    ensures forall j :: j in Batch(q, skip) ==> j in q.rows
  {
  }

  lemma StartsPermitted(s: State, mine: ClaimSet)
    ensures Permitted(s, [], mine) == [] && RunFrom(s, []) == s
  {
  }

  lemma ForeignIsEnabled(s: State, e: Event, mine: ClaimSet)
    requires Foreign(s, e, mine)
    ensures Enabled(s, e)
  {
  }

  /** Every claimed job is resolved as its own fate decides. */
  predicate ResolvesAll(rounds: seq<Round>, claimed: map<nat, Row>, fates: map<nat, Fate>) {
    && |rounds| == |claimed.Keys|
    && forall j :: j in claimed ==> Contains(rounds, Resolution(j, claimed[j], FateOf(fates, j)))
  }

  /** The step is one of the worker's. */
  predicate Contains(rounds: seq<Round>, e: Event) {
    exists k :: 0 <= k < |rounds| && rounds[k].mine == e
  }

  lemma ContainsMore(rounds: seq<Round>, round: Round)
    ensures Contains(rounds + [round], round.mine)
    ensures forall e :: Contains(rounds, e) ==> Contains(rounds + [round], e)
  {
    assert (rounds + [round])[|rounds|] == round;
    forall e | Contains(rounds, e)
      ensures Contains(rounds + [round], e)
    {
      var k :| 0 <= k < |rounds| && rounds[k].mine == e;
      assert (rounds + [round])[k].mine == e;
    }
  }

  class Worker {
    const id: string
    const fleet: Fleet

    constructor (id: string, fleet: Fleet)
      ensures this.id == id && this.fleet == fleet
    {
      this.id, this.fleet := id, fleet;
    }

    /**
     * Whatever the dispatches do and whatever the others do in between, one iteration is part of a run
     * of the protocol: an optional reap, one claim, and then one resolving step for each claimed job,
     * decided by that job's own fate, even when its lock was reaped or its row resolved meanwhile.
     */
    method Iterate(reapDue: bool, skip: set<nat>, fates: map<nat, Fate>, others: nat -> seq<Event>)
      returns (ghost opening: seq<Round>, ghost rest: seq<Round>)
      requires forall j :: j in fates ==> fates[j].jitterMs < 1000
      requires Inv(fleet.Value())
      modifies fleet, fleet.table
      ensures var start := old(fleet.Value());
              && Valid(start, Flat(opening) + Flat(rest))
              && fleet.Value() == RunFrom(start, Flat(opening) + Flat(rest))
              && Interleaved(start, opening, others, 0, {})
      ensures var start, r := old(fleet.Value()), if reapDue then 1 else 0;
              && |opening| == r + 1
              && (reapDue ==> opening[0].mine == ReapStuck)
              && opening[r].mine == Take(id, skip)
              && var claimed := Returned(RunFrom(start, Flat(opening[..r]) + opening[r].theirs).q, id, skip);
                 && ResolvesAll(rest, claimed, fates)
                 && Interleaved(RunFrom(start, Flat(opening)), rest, others, r + 1, ClaimSetOf(claimed))
    {
      hide Valid, Apply, RunFrom, Permitted, Interleaved, Flat, Inv, Held, AllHeld, Returned, Enabled;
      hide ClaimSetOf, ResolvesAll;
      ghost var start := fleet.Value();
      opening := [];
      NoRounds(start, others, 0, {});
      var at := 0;
      if reapDue {
        ghost var theirs := fleet.Meanwhile(others(0), {});
        AlwaysEnabled(fleet.Value(), id, skip);
        RoundsGrow(start, opening, others, 0, {}, ReapStuck);
        fleet.Perform(ReapStuck);
        opening := [Round(theirs, ReapStuck)];
        assert [] + opening == opening;
        at := 1;
      }
      ghost var before := opening;
      ghost var theirs := fleet.Meanwhile(others(at), {});
      ghost var ready := fleet.Value();
      AlwaysEnabled(ready, id, skip);
      RoundsGrow(start, before, others, 0, {}, Take(id, skip));
      var claimed := fleet.ClaimFor(id, skip);
      opening := before + [Round(theirs, Take(id, skip))];
      assert opening[..at] == before;
      InvRun(start, Flat(opening));
      ReturnedAreHeld(ready, id, skip);
      rest := ResolveAll(claimed, fates, others, at + 1);
      RunConcat(start, Flat(opening), Flat(rest));
    }

    /** The loop over the claimed jobs. */
    method ResolveAll(claimed: map<nat, Row>, fates: map<nat, Fate>, others: nat -> seq<Event>, from: nat)
      returns (ghost rounds: seq<Round>)
      requires forall j :: j in fates ==> fates[j].jitterMs < 1000
      requires Inv(fleet.Value())
      requires AllHeld(fleet.Value(), claimed.Keys, claimed)
      modifies fleet, fleet.table
      ensures var start := old(fleet.Value());
              && Interleaved(start, rounds, others, from, ClaimSetOf(claimed))
              && Valid(start, Flat(rounds))
              && fleet.Value() == RunFrom(start, Flat(rounds))
      ensures ResolvesAll(rounds, claimed, fates)
    {
      hide Valid, RunFrom, Resolution, Apply, Enabled, Permitted, Interleaved, Flat, Inv, Held, AllHeld, Contains;
      ghost var start, mine := fleet.Value(), ClaimSetOf(claimed);
      NoRounds(start, others, from, mine);
      rounds := [];
      var todo, k := claimed.Keys, from;
      while todo != {}
        invariant todo <= claimed.Keys && k == from + |rounds|
        invariant |rounds| == |claimed.Keys| - |todo|
        invariant Interleaved(start, rounds, others, from, mine)
        invariant Valid(start, Flat(rounds)) && fleet.Value() == RunFrom(start, Flat(rounds))
        invariant Inv(fleet.Value()) && AllHeld(fleet.Value(), todo, claimed)
        invariant forall j :: j in claimed.Keys - todo ==>
          Contains(rounds, Resolution(j, claimed[j], FateOf(fates, j)))
      {
        var j :| j in todo;
        var fate := FateOf(fates, j);
        ghost var step := Resolution(j, claimed[j], fate);
        TheirsKeepHeld(fleet.Value(), others(k), todo, claimed);
        ghost var theirs := fleet.Meanwhile(others(k), ClaimSetOf(claimed));
        ghost var here := fleet.Value();
        OwnKeepsHeld(here, j, fate, todo, claimed);
        HeldOne(here, j, todo, claimed);
        RoundsGrow(start, rounds, others, from, mine, step);
        Resolve(j, claimed[j], fate);
        ContainsMore(rounds, Round(theirs, step));
        rounds := rounds + [Round(theirs, step)];
        todo, k := todo - {j}, k + 1;
      }
    }

    /**
     * The branches of the loop body for one claimed job. What the row looks like by now does not
     * matter: the statements name the job only.
     */
    method Resolve(j: nat, job: Row, fate: Fate)
      requires Held(fleet.Value(), j, job) && fate.jitterMs < 1000
      modifies fleet, fleet.table
      ensures Enabled(old(fleet.Value()), Resolution(j, job, fate))
      ensures fleet.Value() == Apply(old(fleet.Value()), Resolution(j, job, fate))
      ensures OnlyRow(old(fleet.table.rows), fleet.table.rows, j) && j in fleet.table.rows
      ensures fleet.holders == old(fleet.holders) - {(j, job.attempts)}
      ensures DecidedBy(old(fleet.table.rows)[j], fleet.table.rows[j], job, fate, old(fleet.table.now))
    {
      var jobs := fleet.table;
      if fate.statementFails {
      } else if fate.stopping {
        jobs.FailRetry(j, job.attempts, fate.jitterMs);
      } else {
        match fate.verdict {
          case Finished =>
            jobs.Complete(j);
          case BadPayload =>
            jobs.FailDead(j);
          case Failed(e) =>
            match Classify(e) {
              case Terminal =>
                jobs.FailDead(j);
              case Retryable =>
                if job.attempts >= job.maxAttempts {
                  jobs.FailDead(j);
                } else {
                  jobs.FailRetry(j, job.attempts, fate.jitterMs);
                }
            }
        }
      }
      fleet.Forget(j, job.attempts);
    }
  }

  lemma AlwaysEnabled(s: State, worker: string, skip: set<nat>)
    ensures Enabled(s, ReapStuck) && Enabled(s, Take(worker, skip))
  {
  }

  lemma ReturnedAreHeld(s: State, worker: string, skip: set<nat>)
    ensures var claimed := Returned(s.q, worker, skip);
            AllHeld(Apply(s, Take(worker, skip)), claimed.Keys, claimed)
  {
    hide Held, Apply, Claim, Batch, ClaimRow;
    ClaimedAreHeld(s, worker, skip);
  }
}
