# Bluesky-Account-Role: a verified model

A Dafny model of the parts of Bluesky-Account-Role that decide who holds a Discord role and keep RoleLogic in
step with that decision, with proofs of what they promise. `dafny verify dfyconfig.toml` checks the project.

**Rules.** A rule is an OR of AND-groups over 21 targets and 11 operators (`Rules`). It is decided twice: by an
interpreter over one viewer's facts (`ConditionEval`), and by a compiler that emits a WHERE clause with numbered
parameters (`RuleSql`). The clause is modelled as the text the compiler writes, after lexing. `SqlText` reads it back under
SQL precedence, and `Sql` gives the three-valued meaning of what was read. `CompilerCorrect` says, for every
condition, every rule and every row, exactly when the two verdicts agree; `BulkQuery` carries this to the whole query and
`CompilerSplits` shows each of the three disagreements on a concrete viewer. `RuleMeaning` says what a rule says of a
viewer's rows, which is what the interpreter decides. `RuleValidator` is the only way a rule enters the database;
`StoredForm` says what each thing the editor may send is stored as.

**Jobs.** `Jobs` is the `jobs` table and its statements. `JobProtocol` runs them as atomic steps of any number of
workers that claim, resolve, crash and are reaped; `JobWorker` is the loop of one worker, shown to be part of such a
run while all the others do anything they can between its statements.

**Sync.** `SyncModel` gives the effect of one player sync and one bulk sync on one role link: its configuration,
its rows in `role_assignments` and the set RoleLogic holds. `SyncEngine` performs them on the shared tables.
`SyncTheorems` has convergence of the two paths, the fixed point, the preview and held writes; `PlayerOrder` is the
part of convergence that is about sets and a limit. `RoleLogic` is the chunked upload the engine sends a bulk change
through, `Reconcile` the rewrite of the follow graph, `RoleConfig` the optimistic-lock save, as two statements with
those of other requests in between.

## Conventions and assumptions

- Instants are microseconds. `NOW` is one value for both paths of a comparison.
- Text is a sequence of Unicode scalar values. LOWER is ASCII lowercasing, as in a database with the C collation;
  ORDER BY uses any total order. The regex engine is a parameter shared by both paths. PostgreSQL and Rust
  dialects differ, and that difference is outside the model.
- A SQL error is the value `Fault`; it spreads through every operator, so "never `Fault`" means the query never stops.
- A remote call and the mirror write after it are one step, an answer other than "accepted" leaves RoleLogic
  unchanged, and local database writes succeed. RoleLogic refuses to add a member beyond the link's limit.
- Convergence of the two sync paths takes the guild's member list and the players' guild lists to agree: every listed
  member's own sync covers the guild. Both come from outside and are fetched at different times.
- A claim is identified by the job and the attempt count it returned, since replicas reuse worker names. `skip`
  stands for rows other transactions have locked (SKIP LOCKED). Each statement on a table is one atomic step.

## Where the code and its documentation differ

- src/services/rule_sql.rs:3 says the clause has the same semantics as the evaluator. It has, except on the three
  splits of `CompilerCorrect.Unsplit`: a timestamp a fraction of a day in the future at the tested boundary, a list
  or pack the bound account does not own, and a `not_in` list without strings on a NULL column.
- migrations/006_jobs.sql:4 says replicas drain without processing a job twice. A job is processed once more for
  each time it came back to pending (`JobProtocol.HandedOutAsOftenAsReturned`), for instance when its dispatch
  finished and only `complete` failed (`JobProtocol.FinishedJobRunsAgain`). Two workers never hold a job at one time
  in exactly the runs that never claim a job somebody still holds (`JobProtocol.ExclusiveRunIff`); resolving
  statements match on the job id alone, so an outcome is final exactly when no live claim on the job is left
  (`JobProtocol.FinalIff`). Never reaping the lock of a running job is enough for both.
- migrations/001_initial_schema.sql:12-14 says that two tabs cannot silently clobber each other and that the version
  is bumped in a transaction. They can in two ways. The version a save answers is read in a later statement and
  adopted by the page (templates/role_config.html:697-706), so it may be another tab's (`RoleConfig.AnswerClobbers`);
  and a link that is deleted and registered again counts its versions from 1 anew while old tabs keep working
  (`RoleConfig.DeletionClobbers`). There are no others: after an accepted save, the tab's next one replaces that save
  alone exactly if it carries the version first sent plus one and the link was not deleted in between
  (`RoleConfig.AdoptedVersionIsSafeIff`); for a tab that loaded its version see `RoleConfig.LoadedVersionIsSafeIff`.
- src/services/rolelogic.rs:240-302 tells a vanished or disabled link apart while uploading up to 100000 users; in
  the chunked form a chunk or a commit refused for those reasons is a generic error.

## Model

| member | source | states |
|---|---|---|
| Rules.TargetKeysRoundTrip | src/models/condition.rs:68-121 | each target has one key and each key names one target |
| Rules.OperatorKeysRoundTrip | src/models/condition.rs:141-172 | the same for operators |
| Strings.ContainsIsOccurrence | src/services/condition_eval.rs:133-135 | `contains` holds exactly when the value occurs at some position |
| StoredForm.TrimTells | src/services/rule_validator.rs:105-111 | trimming cuts whitespace off both ends, all of it and nothing else |
| StoredForm.SplitTells | src/services/rule_validator.rs:215-222 | splitting is undone by joining, and no piece holds a comma |
| StoredForm.WrittenIntIsRead | src/services/rule_validator.rs:195-206 | every 64-bit integer, written in decimal, is read as itself |
| Like.EscapeIsCharacterwise | src/services/rule_sql.rs:204-208 | the three ordered replacements put one backslash before each special character |
| Like.EscapeCommutesWithLower | src/services/rule_sql.rs:160-165 | escaping and ASCII lowercasing commute |
| Like.ContainsPatternIsExact | src/services/rule_sql.rs:160-165 | the bound pattern is legal, and the LIKE holds exactly when the lowercased text contains the lowercased value, for all strings |
| SqlText.ParsePrinted | src/services/rule_sql.rs:38-50 | reading a printed expression under operator precedence gives the expression back |
| SqlText.PlaceholdersOfPrinted | src/services/rule_sql.rs:84-107 | the placeholders in a text are those of its expression, left to right |
| RuleSql.BuildRuleWhere | src/services/rule_sql.rs:27-51 | emits the text of the rule's expression and binds its values |
| RuleSql.BuildGroup | src/services/rule_sql.rs:38-48 | an empty group is FALSE, otherwise its conditions joined by AND in parentheses |
| RuleSql.BuildCondition | src/services/rule_sql.rs:84-190 | emits one condition's clause with the next free placeholders and appends its values |
| RuleSql.BuildComparison | src/services/rule_sql.rs:111-190 | the clause and the values of each operator |
| RuleSqlShape.ClauseReadsBack | src/services/rule_sql.rs:38-50 | for every tree, the emitted text parses to exactly the OR of the groups' ANDs |
| RuleSqlShape.PlaceholdersMatchBinds | src/services/rule_sql.rs:84-107 | placeholders are offset+1, offset+2, ..., one per bound value, each once and in order |
| RuleSqlShape.EarlierClausesKeepMeaning | src/services/rule_sql.rs:84-107 | the clause of a condition keeps its meaning while later conditions append to the same bind list |
| RuleSqlShape.ClauseKeepsMeaning | src/services/sync.rs:402-425 | the whole clause keeps its meaning when the caller binds more |
| Sql.EvalReadsOnlyItsParams | src/services/rule_sql.rs:84-107 | an expression means the same under parameters that agree at its placeholders |
| CompilerTypes.WhereIsTyped | src/services/rule_sql.rs:54-190 | for every well-formed tree each parameter has the type of what it is compared with |
| RuleMeaning.VerdictIsSaid | src/services/condition_eval.rs:52-99 | for all 21 targets and 11 operators the verdict is what the condition says of the columns of the viewer's rows |
| RuleMeaning.RuleIsSaid | src/services/condition_eval.rs:40-50 | a rule accepts whom some non-empty group says everything of |
| RuleMeaning.MembershipsAreOwned | src/services/sync.rs:131-170 | the memberships that count are those in lists and packs the bound account owns |
| CompilerCorrect.ConditionMeaning | src/services/rule_sql.rs:84-190 | the clause never errs, and is TRUE of exactly the rows described without SQL: days rounded down, any owner, NULL passing `neq` and a `not_in` without strings |
| CompilerCorrect.ConditionAgreesIff | src/services/rule_sql.rs:84-190 | it is TRUE for the same viewers as the evaluator if and only if none of three splits applies; barring the timestamp split it only ever selects more |
| CompilerCorrect.SeparatesIsExact | src/services/condition_eval.rs:101-123 | an integer condition tells d and d+1 apart exactly at its own boundary values |
| CompilerCorrect.DaysMeaning | src/services/rule_sql.rs:59-66 | the day expressions round the age down, and are NULL without a timestamp |
| CompilerCorrect.MembershipMeaning | src/services/rule_sql.rs:90-107 | the EXISTS holds exactly for members of the named list or pack, whoever owns it |
| CompilerCorrect.TextOperators | src/services/rule_sql.rs:111-190 | text operators match the evaluator on present values; NULL passes only `neq` and a `not_in` without strings |
| CompilerCorrect.WhereMeaning | src/services/rule_sql.rs:27-51 | the whole clause, from the row alone: TRUE if and only if some non-empty group selects the row throughout |
| CompilerCorrect.WhereAgreesIff | src/services/condition_eval.rs:40-50 | the whole clause against the evaluator: TRUE if and only if some group's refused conditions are exactly its split ones; without a future boundary the two disagree if and only if the evaluator refuses, and some group outright refuses nothing |
| CompilerCorrect.WhereIsEvaluator | src/services/condition_eval.rs:40-50 | clause and evaluator agree on every viewer no condition splits |
| CompilerCorrect.EvaluatorImpliesWhere | src/services/condition_eval.rs:40-50 | whoever the evaluator accepts the clause selects, unowned lists and empty `not_in` lists included |
| CompilerSplits.FutureStampSplits | src/services/condition_eval.rs:160-162 | a future account creation is 0 days old to one path and -1 to the other |
| CompilerSplits.UnownedListSplits | src/services/sync.rs:131-170 | a member of another account's list is selected in bulk and refused alone |
| CompilerSplits.NumberListIsAccepted | src/services/rule_validator.rs:207-230 | `not_in 5` is stored as a list without strings |
| CompilerSplits.NumberListSplits | src/services/rule_sql.rs:182-190 | on a NULL column that rule is TRUE in bulk and false alone |
| BulkQuery.QueryReadsBack | src/services/sync.rs:401-413 | the spliced query parses to the member filter AND the whole rule |
| BulkQuery.LimitIndexIsFresh | src/services/sync.rs:402-425 | the caller's limit index is not used by the rule and carries the limit |
| SyncModel.LimitIsBound | src/services/sync.rs:402-425 | what a bulk sync binds there is the link's limit |
| BulkQuery.BindAll | src/services/sync.rs:414-425 | account, members, the rule's values and the caller's are bound in placeholder order |
| BulkQuery.QuerySelectsWhatTheEvaluatorAccepts | src/services/sync.rs:401-427 | end to end: the query returns exactly the members the interpreter accepts |
| BulkQuery.AcceptedMembersAreSelected | src/services/sync.rs:401-427 | without ownership and string conditions it still returns all of them |
| RuleValidator.ParseRuleTree | src/services/rule_validator.rs:44-96 | accepts exactly the acceptable bodies; every stored condition, in its place, is the one that was sent; otherwise names the first fault in reading order, and what is wrong there |
| RuleValidator.AcceptableIff | src/services/rule_validator.rs:44-96 | a body is acceptable if and only if it has 1 to 8 groups of 1 to 12 conditions, each of which can be stored, or grants to everyone linked |
| RuleValidator.AcceptedIsStored | src/services/rule_validator.rs:44-96 | what is stored has the account, flag, groups and conditions that were sent, each in its place |
| RuleValidator.ConditionStoredIff | src/services/rule_validator.rs:98-175 | a condition is accepted as c if and only if c has the target and operator that were named, a legal pair, and values stored from those that were sent |
| RuleValidator.ValueStoredIff | src/services/rule_validator.rs:177-243 | each kind of value is stored as what was sent: the integer, the truth value, the text unchanged, the list's elements or trimmed pieces in order |
| RuleValidator.FaultTells | src/services/rule_validator.rs:98-243 | a refused condition is refused for what is wrong with it |
| RuleValidator.AcceptedTreeRuns | src/services/rule_validator.rs:98-175 | accepted trees have legal operators, values of the target's kind, an upper bound exactly on `between`, and compiling patterns |
| RuleValidator.NormalizeIsIdempotent | src/services/rule_validator.rs:177-243 | a stored value normalizes to itself |
| RuleValidator.ValidationIsIdempotent | src/services/rule_validator.rs:44-96 | re-submitting a stored rule is accepted and stores the same rule |
| Jobs.JobTable.Enqueue | src/services/jobs.rs:52-76 | inserts one pending job due after the delay |
| Jobs.JobTable.EnqueueConfigSyncUnlessQueued | src/services/jobs.rs:192-215 | inserts unless a pending job for the same link waits |
| Jobs.JobTable.ClaimBatch | src/services/jobs.rs:78-102 | of the pending jobs that are due and not row-locked, those with fewer than eight before them are locked and their attempt counted; no other row changes |
| Jobs.JobTable.Complete | src/services/jobs.rs:104-113 | sets the outcome and clears the lock |
| Jobs.JobTable.FailRetry | src/services/jobs.rs:115-129 | puts the job back, unlocked, due in 2 to 256 seconds by the attempts of the resolved claim, plus jitter |
| Jobs.JobTable.FailDead | src/services/jobs.rs:131-142 | sets the outcome and clears the lock |
| Jobs.JobTable.ReapStuck | src/services/jobs.rs:144-155 | frees exactly the locks older than 45 minutes and counts them |
| Jobs.BatchIsFirstEight | src/services/jobs.rs:88-94 | a claim takes at most eight jobs and passes a due job over only for eight lower ids |
| Jobs.ClaimTells | src/services/jobs.rs:78-102 | what a claim does, row by row |
| Jobs.BackoffTable | src/services/jobs.rs:157-163 | the delays are 2, 4, 8, ..., 256 seconds plus the jitter |
| Jobs.BackoffIsBounded | src/services/jobs.rs:157-163 | a backoff lies between 2 and 257 seconds |
| Jobs.RecheckKeepsOne | src/services/jobs.rs:192-215 | afterwards as many copies wait as before, or exactly one |
| JobProtocol.InvAlways | src/services/jobs.rs:52-155 | in every reachable state: in progress iff both lock fields are set, every waiting job due within 20 minutes, claims count attempts made |
| JobProtocol.JobsPersist | src/services/jobs.rs:52-155 | over any run no job is lost, changes its task or lowers its attempts |
| JobProtocol.EnqueueTells | src/services/jobs.rs:52-76 | new jobs wait under the next id, config syncs for 5 seconds and rechecks for 20 minutes |
| JobProtocol.ResolveTells | src/services/jobs.rs:104-142 | a resolve ends the job or makes it wait for its delay, and touches no other |
| JobProtocol.NeverEarly | src/services/jobs.rs:88-94 | over any run a waiting job is not handed out before it is due, nor its row changed except by a resolve of it |
| JobProtocol.CoherentStepIff | src/services/jobs.rs:104-155 | a step keeps every live claim in possession of its lock if and only if it does not reap a running job |
| JobProtocol.CoherentRunIff | src/services/jobs.rs:104-155 | the same over whole runs |
| JobProtocol.ExclusiveRunIff | src/services/jobs.rs:78-102 | no job ever has two live holders if and only if no claim takes a job somebody still holds |
| JobProtocol.SafeRunsAreExclusive | src/services/jobs.rs:78-155 | not reaping running jobs is enough for that |
| JobProtocol.FinalIff | src/services/jobs.rs:104-142 | a completed or dead job stays so in every continuation if and only if no live claim on it is left, and then its row never changes |
| JobProtocol.OutcomesAreFinal | src/services/jobs.rs:104-142 | in safe runs completed and dead rows never change |
| JobProtocol.StaleResolveRevives | src/services/jobs.rs:115-129 | without safety a completed job returns to pending |
| JobProtocol.FinishedJobRunsAgain | src/tasks/job_worker.rs:69-73 | a safe run in which a finished job is handed out again, its `complete` having failed |
| JobProtocol.HandedOutAsOftenAsReturned | src/services/jobs.rs:78-155 | in every run a job is claimed once, and once more for each return to pending, less the hand-outs withdrawn or still waited for |
| JobProtocol.AttemptsAreBounded | src/tasks/job_worker.rs:58-99 | in every run, stale resolves included, attempts are the claims made and at most the cap plus the job's reaps and releases |
| JobProtocol.NoStarvation | src/services/jobs.rs:78-102 | a due job is claimed once the claims made exceed a bound computed from the state, plus the reaps and releases of earlier jobs |
| JobProtocol.PassedOver | src/services/jobs.rs:78-102 | each claim passing a due job over uses up eight of the claims left to earlier jobs |
| JobProtocol.RecheckIsDueSoon | src/services/sync.rs:532-550 | after a recheck is queued one is waiting and due within 20 minutes |
| JobWorker.Worker.Iterate | src/tasks/job_worker.rs:28-101 | with any steps of the others before each statement, one iteration is a run of the protocol: an optional reap, one claim, one resolving step for each claimed job |
| JobWorker.PermittedIsEverything | src/tasks/job_worker.rs:28-101 | every run of the others is among those steps, as long as it resolves none of this worker's claims |
| JobWorker.ForeignRunKeepsHeld | src/services/jobs.rs:104-155 | whatever the others do to the row, the claim stays to be resolved |
| JobWorker.Worker.Resolve | src/tasks/job_worker.rs:58-99 | on the row: completed when the dispatch finished, dead for a bad payload, a vanished or full link or spent attempts, waiting for its delay otherwise and on shutdown, unchanged if the statement fails; whatever became of the row since it was claimed |
| JobWorker.ResolutionDecides | src/tasks/job_worker.rs:58-99 | so does the resolving step of an iteration |
| Collation.LimitedIsSubset | src/services/sync.rs:391-399 | a limited query returns that many distinct members, all when they fit |
| Collation.LimitedIsLeast | src/services/sync.rs:391-399 | what it keeps comes before what it drops |
| Collation.SortedEqualsIff | src/services/sync.rs:429-439 | comparing the sorted lists compares the sets |
| SyncModel.PlayerKeepsAgreement | src/services/sync.rs:273-331 | every outcome of a player delta keeps mirror and RoleLogic equal |
| SyncModel.QualifiesTells | src/services/sync.rs:212-236 | a player qualifies if linked and the link grants to everyone, or the evaluator accepts them |
| SyncModel.PlayerTells | src/services/sync.rs:237-331 | one link after a player's sync, by the verdict and the answer |
| SyncModel.BulkTells | src/services/sync.rs:340-513 | link, rows, RoleLogic's set and result of a bulk sync for every answer it can meet; a recheck if and only if the upload it reaches is held |
| SyncModel.SeededTells | src/services/sync.rs:97-127 | the default rows exist afterwards and nothing else changed |
| SyncModel.BulkKeepsAgreement | src/services/sync.rs:441-513 | every outcome of a bulk sync keeps them equal; held, disabled and failed writes change neither |
| SyncModel.SeedingChangesNoVerdict | src/services/sync.rs:97-127 | seeding default rows changes no verdict |
| SyncEngine.Engine.EnsureBaselineRelations | src/services/sync.rs:97-127 | adds default rows for the connected accounts of the user's guilds, and nothing else |
| SyncEngine.Engine.SyncForPlayer | src/services/sync.rs:176-334 | each link of the player's guilds moves by the verdict and the answer, in any order of calls, all others stay, agreement is kept |
| SyncEngine.Engine.PlanActions | src/services/sync.rs:212-266 | the planned changes are exactly the links whose assignment differs from the verdict |
| SyncEngine.Engine.SyncForRoleLink | src/services/sync.rs:340-474 | link, rows, RoleLogic's set and result for every answer; a sync is waiting and due within 20 minutes if the upload reached is held, else the queue is unchanged; all other links stay, agreement is kept |
| SyncEngine.Engine.DrainToEmpty | src/services/sync.rs:476-513 | empties a link that has rows, by the answers to the upload; a held drain queues a recheck |
| SyncEngine.Engine.Upload | src/services/sync.rs:441-473 | what follows each answer to the upload, and a recheck exactly when it is held |
| SyncEngine.Engine.DeleteOrphanRoleLink | src/services/sync.rs:552-566 | a vanished link goes together with its rows |
| SyncEngine.Engine.SyncForAccount | src/services/sync.rs:519-530 | each bound link gets one debounced config sync, no other job changes |
| SyncEngine.Engine.RemoteReplace | src/services/rolelogic.rs:240-302 | a bulk change goes through the upload, and RoleLogic holds the list or what it held before |
| SyncTheorems.TwoPathsConverge | src/services/sync.rs:176-474 | every order of syncing each member ends where one bulk sync ends if and only if the old rows are members and: the qualifying fit the limit and none is left to add or there is room for all, or they do not fit and those already there are the ones a limited query keeps |
| SyncTheorems.SyncEveryMember | src/services/sync.rs:176-334 | the engine's own player syncs, in any order, end where the bulk sync would, under that condition |
| SyncTheorems.OrdersMatchBulkIff | src/services/sync.rs:176-474 | for any rule, however clause and evaluator differ: every order ends where one bulk sync ends if and only if the orders are confluent and their common end is what the bulk query keeps |
| SyncTheorems.WiderQueryConvergesIff | src/services/sync.rs:176-474 | when the clause only widens: if and only if the members-only condition holds and the limit keeps the same of those found as of those accepted |
| PlayerOrder.OrderMattersUnless | src/services/sync.rs:281-304 | the condition, for sets and a limit: enough for every order, and needed by some order |
| PlayerOrder.OrdersEndAtIff | src/services/sync.rs:281-304 | all orders end at one given set if and only if nobody is left to add, all fit, or the rows that stay fill the limit, and the set is the one so determined |
| PlayerOrder.EveryOrderConverges | src/services/sync.rs:281-304 | enough even when players are synced more than once |
| SyncTheorems.PlayersMoveRows | src/services/sync.rs:176-334 | player syncs add an accepted player if there is room, remove the others, touch nobody else and change no verdict |
| SyncTheorems.BulkResult | src/services/sync.rs:340-474 | an accepted bulk sync leaves the qualifying members up to the limit on both sides |
| SyncTheorems.OverLimitOrderMatters | src/services/sync.rs:281-304 | one slot and two players: the order of their syncs matters |
| SyncTheorems.BulkIsIdempotent | src/services/sync.rs:429-439 | a second bulk sync on unchanged inputs sends nothing |
| SyncTheorems.PreviewCountFor | src/routes/admin.rs:856-933 | the previewed number is the size of the sync's query |
| SyncTheorems.PreviewIsWhatIsGranted | src/routes/admin.rs:862-932 | a bulk sync grants min(matching, limit), for every rule |
| SyncTheorems.HeldWriteComesBack | src/services/sync.rs:532-550 | when RoleLogic holds back the write a bulk sync reaches, nothing changes and one waiting sync is due within 20 minutes, not multiplied; no other sync touches the queue |
| SyncTheorems.SavedRuleRuns | src/services/rule_sql.rs:27-190 | a validated rule's query is well typed and stops with an error on no row |
| RoleLogic.RemoteLink.UploadUsers | src/services/rolelogic.rs:240-302 | all or nothing for every length: RoleLogic holds the list or what it held, with the error of the first refused call |
| RoleLogic.UploadReplyTells | src/services/rolelogic.rs:240-302 | what an upload of any length comes to, in terms of the answers to its calls |
| RoleLogic.ChunksConcatenate | src/services/rolelogic.rs:260-288 | the chunks concatenate to the list |
| RoleLogic.Chunk | src/services/rolelogic.rs:260-265 | every chunk has between 1 and 100000 users |
| Reconcile.RelationTable.RefreshAccount | src/tasks/reconcile.rs:122-174 | reset and rewrite give every viewer of the account the fetched flags and no other row changes |
| Reconcile.TableTellsHistory | src/tasks/reconcile.rs:122-174 | after any history the flags are those of the last refresh and `followed_at` is the first refresh that saw the follow since the last unlink |
| Reconcile.FollowedAtNeverMoves | src/tasks/reconcile.rs:150-162 | unfollowing and following again never moves `followed_at` |
| RoleConfig.RoleLink.Save | src/routes/admin.rs:680-790 | refuses an unsound request for the first failing check and changes nothing; otherwise stores the rule and account that were sent exactly if the stored version is the expected one, and answers what the row says once other requests have run |
| RoleConfig.SoundIff | src/routes/admin.rs:701-728 | a request is sound if and only if its account is the guild's, its rule can be stored, and it has an account or grants to everyone linked |
| RoleConfig.LastRuleIsStored | src/routes/admin.rs:730-745 | after any run the row holds the rule the last accepted save sent, and its account unless that one was disconnected since |
| RoleConfig.NoLostSaves | src/routes/admin.rs:733-761 | over any interleaving the k-th save accepted since registration expected version k and the stored tree is the last one's |
| RoleConfig.OneWinnerPerVersion | src/routes/admin.rs:733-761 | at most one save wins per version |
| RoleConfig.StaleEditorLoses | src/routes/admin.rs:747-761 | while the link is registered, an editor that loaded a version cannot overwrite a save accepted since |
| RoleConfig.LoadedVersionIsSafeIff | src/routes/admin.rs:733-761 | over any continuation, an editor's accepted save replaces nothing but what it loaded if and only if the link was not deleted in between or nothing had been saved |
| RoleConfig.AnsweredOwnVersionIff | src/routes/admin.rs:763-769 | an accepted save is answered its own version if and only if the row it reads back has seen as many saves; that it is still the last save is the same plus no deletion in between |
| RoleConfig.AdoptedVersionIsSafeIff | src/routes/admin.rs:733-789 | over any continuation, after an accepted save the editor's next accepted one replaces that save and nobody else's if and only if it carries the version first sent plus one and the link was not deleted |
| RoleConfig.AnswerClobbers | src/routes/admin.rs:733-769 | a run in which a tab is answered another tab's version and overwrites a save it never saw |
| RoleConfig.DeletionClobbers | src/routes/plugin.rs:119-138 | a run in which a tab answered its own version, or one that loaded it, overwrites a save made after a new registration |
| RoleConfig.DeletedForGood | src/routes/plugin.rs:119-138 | a save made before a deletion is never again among the accepted ones |
| RoleConfig.StoredTreeRuns | src/routes/admin.rs:717-731 | whatever was saved, the stored tree meets what both back ends require |

## Left out

- Lexing of SQL, and the words inside `EXISTS (SELECT 1 FROM ... WHERE` and `EXTRACT(EPOCH FROM`: one token each.
- JSON storage of the rule tree and of job payloads; a payload that cannot be read is a terminal verdict of the dispatch.
- Regex matching, locale-aware LOWER and the order of texts beyond a total order: parameters.
- The division inside the day expressions is exact; PostgreSQL's numeric division keeps enough digits for its floor to be the same.
- Rust's clock has nanoseconds; ages are compared at the microseconds a timestamptz stores.
- Races between a bulk and a player sync on one link: the code does not order a remote call against its mirror write.
- A remote call that takes effect although its answer is an error.
- Worker polling, NOTIFY, and any promise that a shutdown releases the remaining jobs; a release is only a possible step.
- `last_error` and the log output.
- HTTP status and body matching that classifies RoleLogic's answers; an answer is given as its class.
- Fetching followers and lists: the theorems speak of the sets actually used, and a failed fetch counts as an empty set.
- List and starter-pack catalogues and their members, member verification, tokens, sessions and pages.
- A reap or claim statement that fails: the loop goes on as if it had not been made.
- RoleConfig.RoleLink.Save: does not model text holding U+0000. Such a rule passes the validator, but PostgreSQL
  stores it in no JSONB column, so its save ends with a database error.
- SyncTheorems.SavedRuleRuns: the same for its query, since no text parameter may hold U+0000.
