/** The sync engine over the shared tables: links, `role_assignments`, the remote sets and the queue. */
module SyncEngine {
  import opened Wrappers
  import opened Errors
  import opened Rules
  import opened Facts
  import opened ConditionEval
  import opened Collation
  import opened RoleLogic
  import opened SyncModel
  import Sql
  import SqlText
  import RuleSql
  import BulkQuery
  import Jobs

  /** A row of `role_assignments`. */
  type Assignment = (LinkKey, string)

  function RowsFor(mirror: set<Assignment>, key: LinkKey): set<string> {
    set a | a in mirror && a.0 == key :: a.1
  }

  lemma RowsForMember(mirror: set<Assignment>, key: LinkKey, d: string)
    ensures d in RowsFor(mirror, key) <==> (key, d) in mirror
  {
    if (key, d) in mirror {
      assert (key, d).1 in RowsFor(mirror, key);
    }
  }

  function RemoteFor(upstream: map<LinkKey, Remote>, key: LinkKey): Remote {
    if key in upstream then upstream[key] else Remote({}, 0)
  }

  function ReplyOf(replies: map<LinkKey, Reply>, key: LinkKey): Reply {
    if key in replies then replies[key] else Refused
  }

  datatype Action = Add(key: LinkKey) | Remove(key: LinkKey)

  class Engine {
    const host: Host
    const le: Order
    const jobs: Jobs.JobTable
    var db: Db
    var links: map<LinkKey, Link>
    var mirror: set<Assignment>
    var upstream: map<LinkKey, Remote>

    constructor (host: Host, le: Order, jobs: Jobs.JobTable, db: Db)
      ensures this.host == host && this.le == le && this.jobs == jobs && this.db == db
      ensures links == map[] && mirror == {} && upstream == map[]
    {
      this.host, this.le, this.jobs, this.db := host, le, jobs, db;
      links, mirror, upstream := map[], {}, map[];
    }

    function ViewOf(key: LinkKey): View
      reads this
    {
      View(if key in links then Some(links[key]) else None, RowsFor(mirror, key), RemoteFor(upstream, key))
    }

    /** Every link's mirror is what RoleLogic holds for it. */
    ghost predicate Agreement()
      reads this
    {
      forall key :: Mirrored(ViewOf(key))
    }

    // ---------- Statements ----------

    method EnsureBaselineRelations(d: string, guilds: set<string>)
      modifies this`db
      ensures db == Seeded(old(db), d, guilds)
      ensures DefaultsAdded(old(db), db, d, guilds)
    {
      SeededTells(db, d, guilds);
      hide DefaultsAdded;
      if guilds == {} {
        assert Seeded(db, d, guilds).relations == db.relations;
        return;
      }
      if d !in db.users {
        return;
      }
      var viewer := db.users[d].did;
      var missing := map g | g in db.guildAccounts && g.0 in guilds && (g.1, viewer) !in db.relations ::
        (g.1, viewer) := BASELINE;
      db := db.(relations := missing + db.relations);
    }

    /** DELETE FROM role_links; its assignment rows go with it. */
    method DeleteOrphanRoleLink(key: LinkKey)
      modifies this`links, this`mirror
      ensures ViewOf(key) == DropLink(old(ViewOf(key)))
      ensures key !in links && forall a :: a in mirror <==> a in old(mirror) && a.0 != key
      ensures upstream == old(upstream) && forall k :: k != key ==> (k in links <==> k in old(links))
      ensures forall k :: k != key ==> ViewOf(k) == old(ViewOf(k))
    {
      links := links - {key};
      mirror := set a | a in mirror && a.0 != key;
      forall k: LinkKey, d
        ensures d in RowsFor(mirror, k) <==> k != key && d in RowsFor(old(mirror), k)
      {
        RowsForMember(mirror, k, d);
        RowsForMember(old(mirror), k, d);
      }
    }

    method InsertAssignment(key: LinkKey, d: string)
      modifies this`mirror
      ensures ViewOf(key) == old(ViewOf(key)).(rows := old(ViewOf(key)).rows + {d})
      ensures forall k :: k != key ==> ViewOf(k) == old(ViewOf(k))
    {
      mirror := mirror + {(key, d)};
      forall k: LinkKey, e
        ensures e in RowsFor(mirror, k) <==> e in RowsFor(old(mirror), k) || (k == key && e == d)
      {
        RowsForMember(mirror, k, e);
        RowsForMember(old(mirror), k, e);
      }
    }

    method DeleteAssignment(key: LinkKey, d: string)
      modifies this`mirror
      ensures ViewOf(key) == old(ViewOf(key)).(rows := old(ViewOf(key)).rows - {d})
      ensures forall k :: k != key ==> ViewOf(k) == old(ViewOf(k))
    {
      mirror := mirror - {(key, d)};
      forall k: LinkKey, e
        ensures e in RowsFor(mirror, k) <==> e in RowsFor(old(mirror), k) && !(k == key && e == d)
      {
        RowsForMember(mirror, k, e);
        RowsForMember(old(mirror), k, e);
      }
    }

    /** Delete the link's rows, insert the new ones. */
    method ReplaceAssignments(key: LinkKey, users: seq<string>)
      modifies this`mirror
      ensures ViewOf(key) == old(ViewOf(key)).(rows := AsSet(users))
      ensures forall k :: k != key ==> ViewOf(k) == old(ViewOf(k))
    {
      mirror := set a | a in mirror && a.0 != key;
      mirror := mirror + set d | d in users :: (key, d);
      forall k: LinkKey, e
        ensures e in RowsFor(mirror, k) <==> if k == key then e in users else e in RowsFor(old(mirror), k)
      {
        RowsForMember(mirror, k, e);
        RowsForMember(old(mirror), k, e);
      }
    }

    // ---------- Remote calls ----------

    method RemoteAdd(key: LinkKey, d: string, reply: Reply) returns (r: Result<(), AppError>)
      modifies this`upstream
      ensures reply == Accepted ==>
        var was := RemoteFor(old(upstream), key);
        if d !in was.members && |was.members| >= was.limit
        then r == Err(UserLimitReached(was.limit)) && upstream == old(upstream)
        else r == Ok(()) && upstream == old(upstream)[key := was.(members := was.members + {d})]
      ensures reply == Gone ==> r == Err(RoleLinkNotFound) && upstream == old(upstream)
      ensures reply !in {Accepted, Gone} ==>
        upstream == old(upstream) && r.Err? && r.error in {RoleLinkDisabled, OtherError}
    {
      match reply
      case Gone => r := Err(RoleLinkNotFound);
      case Disabled => r := Err(RoleLinkDisabled);
      case Held | Refused => r := Err(OtherError);
      case Accepted =>
        var was := RemoteFor(upstream, key);
        if d !in was.members && |was.members| >= was.limit {
          r := Err(UserLimitReached(was.limit));
        } else {
          upstream := upstream[key := was.(members := was.members + {d})];
          r := Ok(());
        }
    }

    method RemoteRemove(key: LinkKey, d: string, reply: Reply) returns (r: Result<(), AppError>)
      modifies this`upstream
      ensures reply == Accepted ==>
        var was := RemoteFor(old(upstream), key);
        r == Ok(()) && upstream == old(upstream)[key := was.(members := was.members - {d})]
      ensures reply == Gone ==> r == Err(RoleLinkNotFound) && upstream == old(upstream)
      ensures reply !in {Accepted, Gone} ==>
        upstream == old(upstream) && r.Err? && r.error in {RoleLinkDisabled, OtherError}
    {
      match reply
      case Gone => r := Err(RoleLinkNotFound);
      case Disabled => r := Err(RoleLinkDisabled);
      case Held | Refused => r := Err(OtherError);
      case Accepted =>
        var was := RemoteFor(upstream, key);
        upstream := upstream[key := was.(members := was.members - {d})];
        r := Ok(());
    }

    /** `upload_users` on this link: RoleLogic holds the list, or what it held before. */
    method RemoteReplace(key: LinkKey, users: seq<string>, net: UploadNet) returns (r: Result<nat, AppError>)
      modifies this`upstream
      ensures var was := RemoteFor(old(upstream), key);
              var reply := UploadReply(|users|, net);
              && r == (if reply == Accepted then Ok(|users|) else Err(UploadError(reply)))
              && RemoteFor(upstream, key) == if reply == Accepted then was.(members := AsSet(users)) else was
      ensures forall k :: k != key ==> RemoteFor(upstream, k) == RemoteFor(old(upstream), k)
    {
      hide UploadReply, UploadError;
      var was := RemoteFor(upstream, key);
      var link := new RemoteLink(was.members);
      r := link.UploadUsers(users, net);
      upstream := upstream[key := was.(members := link.users)];
    }

    // ---------- Per-player sync ----------

    /**
     * One player, all links of the player's guilds. Each link moves by its own delta, whatever order
     * the calls complete in; nothing else moves but the baseline rows.
     */
    method SyncForPlayer(d: string, guilds: Result<set<string>, AppError>, replies: map<LinkKey, Reply>)
      returns (r: Result<(), AppError>)
      modifies this
      ensures r == if guilds.Err? then Err(guilds.error) else Ok(())
      ensures guilds.Err? ==> db == old(db)
      ensures guilds.Ok? ==> db == Seeded(old(db), d, guilds.value)
      ensures forall key ::
        ViewOf(key) ==
        if guilds.Ok? && key.guild in guilds.value && key in old(links)
        then PlayerView(old(ViewOf(key)), Qualifies(host, jobs.now, db, old(links)[key], d), d, ReplyOf(replies, key))
        else old(ViewOf(key))
      ensures old(Agreement()) ==> Agreement()
      ensures forall key: LinkKey ::
        if guilds.Ok? && key.guild in guilds.value && key in old(links)
        then PlayerDone(old(ViewOf(key)), ViewOf(key), Accepts(host, jobs.now, db, old(links)[key], d), d,
                        ReplyOf(replies, key))
        else ViewOf(key) == old(ViewOf(key))
    {
      if guilds.Err? {
        return Err(guilds.error);
      }
      EnsureBaselineRelations(d, guilds.value);

      var actions := PlanActions(d, guilds.value);
      PerformActions(actions, d, replies);
      r := Ok(());
      forall key, accepted {
        PlayerTells(old(ViewOf(key)), accepted, d, ReplyOf(replies, key));
      }
      forall key | key in old(links) {
        QualifiesTells(host, jobs.now, db, old(links)[key], d);
      }
      forall key, qualifies | Mirrored(old(ViewOf(key))) {
        PlayerKeepsAgreement(old(ViewOf(key)), qualifies, d, ReplyOf(replies, key));
      }
    }

    /** The links whose assignment differs from the verdict, with the change each needs. */
    method PlanActions(d: string, guilds: set<string>) returns (actions: set<Action>)
      ensures forall a :: a in actions <==>
        && a.key in links && a.key.guild in guilds
        && var q := Qualifies(host, jobs.now, db, links[a.key], d);
           if a.Add? then q && d !in ViewOf(a.key).rows else !q && d in ViewOf(a.key).rows
    {
      var existing := set a | a in mirror && a.1 == d :: a.0;
      forall key
        ensures key in existing <==> d in RowsFor(mirror, key)
      {
        RowsForMember(mirror, key, d);
        if (key, d) in mirror {
          assert (key, d).0 in existing;
        }
      }

      var scope := set key | key in links && key.guild in guilds;
      actions := {};
      var todo := scope;
      while todo != {}
        invariant todo <= scope
        invariant forall a :: a in actions <==>
          && a.key in scope - todo
          && var q := Qualifies(host, jobs.now, db, links[a.key], d);
             if a.Add? then q && a.key !in existing else !q && a.key in existing
      {
        var key :| key in todo;
        var qualifies := Qualifies(host, jobs.now, db, links[key], d);
        if qualifies && key !in existing {
          actions := actions + {Add(key)};
        } else if !qualifies && key in existing {
          actions := actions + {Remove(key)};
        }
        todo := todo - {key};
      }
    }

    /** The remote calls of one player run concurrently. No link has two of them, so any order gives the same views. */
    method PerformActions(planned: set<Action>, d: string, replies: map<LinkKey, Reply>)
      requires forall key :: Add(key) !in planned || Remove(key) !in planned
      modifies this`links, this`mirror, this`upstream
      ensures forall key ::
        ViewOf(key) ==
        if Add(key) in planned then AddUser(old(ViewOf(key)), d, ReplyOf(replies, key))
        else if Remove(key) in planned then RemoveUser(old(ViewOf(key)), d, ReplyOf(replies, key))
        else old(ViewOf(key))
    {
      var actions := planned;
      while actions != {}
        invariant actions <= planned
        invariant forall key ::
          ViewOf(key) ==
          if Add(key) in planned - actions then AddUser(old(ViewOf(key)), d, ReplyOf(replies, key))
          else if Remove(key) in planned - actions then RemoveUser(old(ViewOf(key)), d, ReplyOf(replies, key))
          else old(ViewOf(key))
      {
        var action :| action in actions;
        match action {
          case Add(key) => PerformAdd(key, d, ReplyOf(replies, key));
          case Remove(key) => PerformRemove(key, d, ReplyOf(replies, key));
        }
        actions := actions - {action};
      }
    }

    method PerformAdd(key: LinkKey, d: string, reply: Reply)
      modifies this`links, this`mirror, this`upstream
      ensures ViewOf(key) == AddUser(old(ViewOf(key)), d, reply)
      ensures forall k :: k != key ==> ViewOf(k) == old(ViewOf(k))
    {
      var r := RemoteAdd(key, d, reply);
      match r {
        case Err(RoleLinkNotFound) =>
          DeleteOrphanRoleLink(key);
        case Err(_) =>
        case Ok(_) =>
          InsertAssignment(key, d);
      }
    }

    method PerformRemove(key: LinkKey, d: string, reply: Reply)
      modifies this`links, this`mirror, this`upstream
      ensures ViewOf(key) == RemoveUser(old(ViewOf(key)), d, reply)
      ensures forall k :: k != key ==> ViewOf(k) == old(ViewOf(k))
    {
      var r := RemoteRemove(key, d, reply);
      match r {
        case Err(RoleLinkNotFound) =>
          DeleteOrphanRoleLink(key);
        case Err(_) =>
        case Ok(_) =>
          DeleteAssignment(key, d);
      }
    }

    // ---------- Per-link sync ----------

    /** The rows of the rule's query, from the text the compiler emits. */
    method QueryRule(account: string, tree: RuleTree, members: seq<string>, limit: nat) returns (rows: set<string>)
      ensures rows == BulkQuery.RuleRows(host, jobs.now, db, account, tree, members, [Sql.VNum(limit as real)])
    {
      var text, binds := RuleSql.BuildRuleWhere(tree, 2);
      var params := BulkQuery.BindAll(account, members, binds, [Sql.VNum(limit as real)]);
      BulkQuery.QueryReadsBack(tree);
      var query := SqlText.Parse(BulkQuery.QueryText(text));
      rows := BulkQuery.SelectIds(host, jobs.now, db, account, query.value, params);
    }

    /** The members the link grants to: everyone linked, or whom the rule's query returns. */
    method FindQualifying(link: Link, members: seq<string>, limit: nat) returns (found: set<string>)
      requires link.tree.grantOnAnyRelation || link.account.Some?
      ensures found == QualifyingRows(host, jobs.now, db, link, members, [Sql.VNum(limit as real)])
    {
      if link.tree.grantOnAnyRelation {
        found := set d | d in db.users && d in members;
      } else {
        found := QueryRule(link.account.value, link.tree, members, limit);
      }
    }

    /** One link: only its view moves, and the queue when a write is held. */
    method SyncForRoleLink(key: LinkKey, net: BulkNet) returns (r: Result<(), AppError>)
      requires TotalOrder(le)
      modifies this`links, this`mirror, this`upstream, jobs
      ensures var o := BulkOutcome(host, old(jobs.now), le, db, old(ViewOf(key)), net);
              && ViewOf(key) == o.view
              && r == (if o.error.Some? then Err(o.error.value) else Ok(()))
              && jobs.Value()
                 == if o.recheck then Jobs.InsertUnlessQueued(old(jobs.Value()), Jobs.ConfigSync(key.guild, key.role))
                    else old(jobs.Value())
      ensures forall k :: k != key ==> ViewOf(k) == old(ViewOf(k))
      ensures old(Agreement()) ==> Agreement()
      ensures BulkDone(host, old(jobs.now), le, db, old(ViewOf(key)), net, ViewOf(key), r)
      ensures if HeldAtUpload(host, old(jobs.now), le, db, old(ViewOf(key)), net)
              then RecheckWaits(old(jobs.Value()), jobs.Value(), key) else jobs.Value() == old(jobs.Value())
    {
      BulkTells(host, jobs.now, le, db, ViewOf(key), net);
      RecheckTells(jobs.Value(), key);
      if Mirrored(ViewOf(key)) {
        BulkKeepsAgreement(host, jobs.now, le, db, ViewOf(key), net);
      }
      hide BulkDone, HeldAtUpload, RecheckWaits, Jobs.InsertUnlessQueued, BulkOutcome, Mirrored;
      BulkCases(host, jobs.now, le, db, ViewOf(key), net);
      hide Uploaded, UploadHeld, Replace, Drain;
      if key !in links {
        return Ok(());
      }
      var link := links[key];
      if !link.tree.grantOnAnyRelation && (link.account.None? || link.tree.groups == []) {
        r := DrainToEmpty(key, net.upload);
        return;
      }
      if net.members.Err? {
        return Err(net.members.error);
      }
      if net.members.value == [] {
        r := DrainToEmpty(key, net.upload);
        return;
      }
      r := GrantToMembers(key, net);
    }

    /** With members to grant to: what RoleLogic knows of the link, then the query, then the comparison. */
    method GrantToMembers(key: LinkKey, net: BulkNet) returns (r: Result<(), AppError>)
      requires TotalOrder(le) && key in links && net.members.Ok? && net.members.value != []
      requires !GrantsNobody(links[key])
      modifies this`links, this`mirror, this`upstream, jobs
      ensures Follows(BulkOutcome(host, old(jobs.now), le, db, old(ViewOf(key)), net), key, r, old(jobs.Value()))
      ensures forall k :: k != key ==> ViewOf(k) == old(ViewOf(k))
    {
      BulkCases(host, jobs.now, le, db, ViewOf(key), net);
      hide RecheckWaits, Uploaded, UploadHeld, Jobs.InsertUnlessQueued, Replace, BulkOutcome, QualifyingRows;
      hide Limited, Sorted, BulkQuery.RuleRows;
      match net.info {
        case Gone =>
          DeleteOrphanRoleLink(key);
          return Ok(());
        case Disabled =>
          return Ok(());
        case Held | Refused =>
          return Err(OtherError);
        case Accepted =>
      }
      var limit := RemoteFor(upstream, key).limit;
      var found := FindQualifying(links[key], net.members.value, limit);
      var qualifying := Limited(le, found, limit);
      var current := Sorted(le, RowsFor(mirror, key));
      if current == qualifying {
        return Ok(());
      }
      r := Upload(key, qualifying, net.upload);
    }

    method DrainToEmpty(key: LinkKey, net: UploadNet) returns (r: Result<(), AppError>)
      modifies this`links, this`mirror, this`upstream, jobs
      ensures Follows(Drain(old(ViewOf(key)), net), key, r, old(jobs.Value()))
      ensures forall k :: k != key ==> ViewOf(k) == old(ViewOf(k))
      ensures if old(ViewOf(key)).rows == {} then r == Ok(()) && ViewOf(key) == old(ViewOf(key))
              else Uploaded(old(ViewOf(key)), ViewOf(key), [], net, r)
      ensures if old(ViewOf(key)).rows != {} && UploadHeld(0, net)
              then RecheckWaits(old(jobs.Value()), jobs.Value(), key) else jobs.Value() == old(jobs.Value())
    {
      if RowsFor(mirror, key) == {} {
        return Ok(());
      }
      r := Upload(key, [], net);
    }

    /** The state and result an outcome describes. */
    ghost predicate Follows(o: Outcome, key: LinkKey, r: Result<(), AppError>, queue: Jobs.Queue)
      reads this, jobs
    {
      && ViewOf(key) == o.view
      && r == (if o.error.Some? then Err(o.error.value) else Ok(()))
      && jobs.Value()
         == if o.recheck then Jobs.InsertUnlessQueued(queue, Jobs.ConfigSync(key.guild, key.role)) else queue
    }

    /** `upload_users` and what follows each of its results. */
    method Upload(key: LinkKey, users: seq<string>, net: UploadNet) returns (r: Result<(), AppError>)
      modifies this`links, this`mirror, this`upstream, jobs
      ensures Follows(Replace(old(ViewOf(key)), users, net), key, r, old(jobs.Value()))
      ensures forall k :: k != key ==> ViewOf(k) == old(ViewOf(k))
      ensures Uploaded(old(ViewOf(key)), ViewOf(key), users, net, r)
      ensures if UploadHeld(|users|, net)
              then RecheckWaits(old(jobs.Value()), jobs.Value(), key) else jobs.Value() == old(jobs.Value())
    {
      ReplaceTells(ViewOf(key), users, net);
      RecheckTells(jobs.Value(), key);
      hide Uploaded, UploadHeld, RecheckWaits;
      var answer := RemoteReplace(key, users, net);
      match answer {
        case Ok(_) =>
          ReplaceAssignments(key, users);
          r := Ok(());
        case Err(RoleLinkNotFound) =>
          DeleteOrphanRoleLink(key);
          r := Ok(());
        case Err(RoleLinkDisabled) =>
          r := Ok(());
        case Err(RemovalHeld) =>
          jobs.EnqueueConfigSyncUnlessQueued(key.guild, key.role);
          r := Ok(());
        case Err(e) =>
          r := Err(e);
      }
    }

    // ---------- Per-account fan-out ----------

    /** Every link bound to the account gets a config sync of its own; no other job is touched. */
    method SyncForAccount(did: string)
      requires forall id :: id in jobs.rows ==> id < jobs.nextId
      modifies jobs
      ensures forall key :: key in links && links[key].account == Some(did) ==>
        HasNewSync(jobs.rows, old(jobs.nextId), key, jobs.now)
      ensures forall id :: id in old(jobs.rows) ==> id in jobs.rows && jobs.rows[id] == old(jobs.rows[id])
      ensures jobs.now == old(jobs.now)
      ensures jobs.nextId == old(jobs.nextId) + |set key | key in links && links[key].account == Some(did)|
    {
      var bound := set key | key in links && links[key].account == Some(did);
      var todo := bound;
      while todo != {}
        invariant todo <= bound && jobs.now == old(jobs.now)
        invariant old(jobs.nextId) <= jobs.nextId == old(jobs.nextId) + |bound| - |todo|
        invariant forall id :: id in jobs.rows ==> id < jobs.nextId
        invariant forall id :: id in old(jobs.rows) ==> id in jobs.rows && jobs.rows[id] == old(jobs.rows[id])
        invariant forall key :: key in bound - todo ==> HasNewSync(jobs.rows, old(jobs.nextId), key, jobs.now)
      {
        var key :| key in todo;
        ghost var rows, id := jobs.rows, jobs.nextId;
        jobs.EnqueueConfigSync(key.guild, key.role);
        assert jobs.rows == jobs.Value().rows;
        assert id in jobs.rows && id >= old(jobs.nextId) && IsDebouncedSync(jobs.rows[id], key, jobs.now);
        forall k | HasNewSync(rows, old(jobs.nextId), k, jobs.now)
          ensures HasNewSync(jobs.rows, old(jobs.nextId), k, jobs.now)
        {
          var i :| i in rows && i >= old(jobs.nextId) && IsDebouncedSync(rows[i], k, jobs.now);
          assert i in jobs.rows && jobs.rows[i] == rows[i];
        }
        todo := todo - {key};
      }
    }
  }

  /** A sync of the link waits already, and the queue is as it was; or a new one is due in twenty minutes. */
  predicate RecheckAdded(q: Jobs.Queue, q': Jobs.Queue, key: LinkKey) {
    var task := Jobs.ConfigSync(key.guild, key.role);
    if exists id :: id in q.rows && q.rows[id].status.Pending? && q.rows[id].task == task then q' == q
    else
      && q'.rows == q.rows[q.nextId :=
           Jobs.Row(task, Jobs.Pending, 0, 8, q.now + 20 * 60 * Jobs.SECOND, None, None, None)]
      && q'.nextId == q.nextId + 1 && q'.now == q.now
  }

  /** Every waiting job is due within twenty minutes, as in every state the queue reaches. */
  predicate AllSoon(q: Jobs.Queue) {
    forall id :: id in q.rows && q.rows[id].status.Pending? ==>
      q.rows[id].nextRunAt <= q.now + 20 * 60 * Jobs.SECOND
  }

  /** A sync of the link is waiting, and due within twenty minutes. */
  predicate RecheckWaits(q: Jobs.Queue, q': Jobs.Queue, key: LinkKey) {
    && RecheckAdded(q, q', key)
    && (AllSoon(q) ==>
          exists id :: id in q'.rows && q'.rows[id].status.Pending?
                       && q'.rows[id].task == Jobs.ConfigSync(key.guild, key.role)
                       && q'.rows[id].nextRunAt <= q'.now + 20 * 60 * Jobs.SECOND)
  }

  lemma RecheckTells(q: Jobs.Queue, key: LinkKey)
    ensures RecheckWaits(q, Jobs.InsertUnlessQueued(q, Jobs.ConfigSync(key.guild, key.role)), key)
  {
    var task := Jobs.ConfigSync(key.guild, key.role);
    var q' := Jobs.InsertUnlessQueued(q, task);
    if id :| id in q.rows && q.rows[id].status.Pending? && q.rows[id].task == task {
      assert id in Jobs.PendingCopies(q, task);
      assert id in q'.rows;
    } else {
      assert Jobs.PendingCopies(q, task) == {};
      assert q.nextId in q'.rows;
    }
  }

  predicate HasNewSync(rows: map<nat, Jobs.Row>, from: nat, key: LinkKey, now: int) {
    exists id :: id in rows && id >= from && IsDebouncedSync(rows[id], key, now)
  }

  predicate IsDebouncedSync(row: Jobs.Row, key: LinkKey, now: int) {
    && row.task == Jobs.ConfigSync(key.guild, key.role)
    && row.status.Pending?
    && row.nextRunAt == now + Jobs.CONFIG_DEBOUNCE
  }
}
