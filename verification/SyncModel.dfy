/**
 * What one sync does to one role link. A link's view is its configuration, its rows in
 * `role_assignments` and the set RoleLogic holds for it; every remote call is taken together with
 * the mirror write that follows it.
 */
module SyncModel {
  import opened Wrappers
  import opened Errors
  import opened Rules
  import opened Facts
  import opened ConditionEval
  import opened Collation
  import opened RoleLogic
  import Sql
  import BulkQuery
  import RuleSql

  datatype LinkKey = LinkKey(guild: string, role: string)

  datatype Link = Link(account: Option<string>, tree: RuleTree)

  datatype Remote = Remote(members: set<string>, limit: nat)

  datatype View = View(link: Option<Link>, rows: set<string>, remote: Remote)

  // ---------- Who qualifies ----------

  /** `ensure_baseline_relations`: a default row for every account the user's guilds are connected to. */
  function Seeded(db: Db, d: string, guilds: set<string>): Db {
    if d !in db.users then db
    else
      var viewer := db.users[d].did;
      var missing := map g | g in db.guildAccounts && g.0 in guilds && (g.1, viewer) !in db.relations ::
        (g.1, viewer) := BASELINE;
      db.(relations := missing + db.relations)
  }

  /** The verdict of the per-player path. */
  predicate Qualifies(host: Host, now: Instant, db: Db, link: Link, d: string) {
    if link.tree.grantOnAnyRelation then d in db.users
    else if link.account.None? then false
    else BulkQuery.AcceptedByEvaluator(host, now, db, link.account.value, link.tree, d)
  }

  predicate GrantsNobody(link: Link) {
    !link.tree.grantOnAnyRelation && (link.account.None? || link.tree.groups == [])
  }

  /** The rows of the bulk path's query before its limit. */
  function QualifyingRows(
      host: Host, now: Instant, db: Db, link: Link, members: seq<string>, tail: seq<Sql.V>): set<string>
  {
    if link.tree.grantOnAnyRelation then set d | d in db.users && d in members
    else if link.account.None? then {}
    else BulkQuery.RuleRows(host, now, db, link.account.value, link.tree, members, tail)
  }

  // ---------- One player, one link ----------

  function DropLink(v: View): View {
    v.(link := None, rows := {})
  }

  function AddUser(v: View, d: string, reply: Reply): View {
    match reply
    case Gone => DropLink(v)
    case Accepted =>
      if d !in v.remote.members && |v.remote.members| >= v.remote.limit then v
      else v.(rows := v.rows + {d}, remote := v.remote.(members := v.remote.members + {d}))
    case _ => v
  }

  function RemoveUser(v: View, d: string, reply: Reply): View {
    match reply
    case Gone => DropLink(v)
    case Accepted => v.(rows := v.rows - {d}, remote := v.remote.(members := v.remote.members - {d}))
    case _ => v
  }

  /** The delta a player sync applies to one link of one of the player's guilds. */
  function PlayerView(v: View, qualifies: bool, d: string, reply: Reply): View {
    if v.link.None? then v
    else if qualifies && d !in v.rows then AddUser(v, d, reply)
    else if !qualifies && d in v.rows then RemoveUser(v, d, reply)
    else v
  }

  // ---------- One bulk sync ----------

  /** The answers a bulk sync meets: the member list, the link's user info, the upload. */
  datatype BulkNet = BulkNet(members: Result<seq<string>, AppError>, info: Reply, upload: UploadNet)

  /** The view after it, its error, the list sent to RoleLogic if any, whether a recheck is queued. */
  datatype Outcome = Outcome(view: View, error: Option<AppError>, sent: Option<seq<string>>, recheck: bool)

  function Unchanged(v: View): Outcome {
    Outcome(v, None, None, false)
  }

  function Replace(v: View, users: seq<string>, net: UploadNet): Outcome {
    match UploadReply(|users|, net)
    case Accepted =>
      Outcome(v.(rows := AsSet(users), remote := v.remote.(members := AsSet(users))), None, Some(users), false)
    case Gone => Outcome(DropLink(v), None, Some(users), false)
    case Disabled => Outcome(v, None, Some(users), false)
    case Held => Outcome(v, None, Some(users), true)
    case Refused => Outcome(v, Some(OtherError), Some(users), false)
  }

  function Drain(v: View, net: UploadNet): Outcome {
    if v.rows == {} then Unchanged(v) else Replace(v, [], net)
  }

  function LimitValue(v: View): seq<Sql.V> {
    [Sql.VNum(v.remote.limit as real)]
  }

  /** The last value bound, at the index the query's LIMIT names, is the link's limit. */
  lemma LimitIsBound(v: View, account: string, members: seq<string>, binds: seq<RuleSql.Bind>)
    ensures var params := BulkQuery.QueryParams(account, members, binds, LimitValue(v));
            |params| == 2 + |binds| + 1 && params[2 + |binds|] == Sql.VNum(v.remote.limit as real)
  {
  }

  function Granted(host: Host, now: Instant, le: Order, db: Db, v: View, members: seq<string>): seq<string>
    requires TotalOrder(le) && v.link.Some?
  {
    Limited(le, QualifyingRows(host, now, db, v.link.value, members, LimitValue(v)), v.remote.limit)
  }

  function BulkOutcome(host: Host, now: Instant, le: Order, db: Db, v: View, net: BulkNet): Outcome
    requires TotalOrder(le)
  {
    if v.link.None? then Unchanged(v)
    else if GrantsNobody(v.link.value) then Drain(v, net.upload)
    else if net.members.Err? then Outcome(v, Some(net.members.error), None, false)
    else if net.members.value == [] then Drain(v, net.upload)
    else
      match net.info
      case Gone => Outcome(DropLink(v), None, None, false)
      case Disabled => Unchanged(v)
      case Held | Refused => Outcome(v, Some(OtherError), None, false)
      case Accepted =>
        var users := Granted(host, now, le, db, v, net.members.value);
        if Sorted(le, v.rows) == users then Unchanged(v) else Replace(v, users, net.upload)
  }

  /** The paths of a bulk sync, one unfolding. */
  lemma BulkCases(host: Host, now: Instant, le: Order, db: Db, v: View, net: BulkNet)
    requires TotalOrder(le)
    ensures var o := BulkOutcome(host, now, le, db, v, net);
            && (v.link.None? ==> o == Unchanged(v))
            && (v.link.Some? && GrantsNobody(v.link.value) ==> o == Drain(v, net.upload))
            && (v.link.Some? && !GrantsNobody(v.link.value) ==>
                  if net.members.Err? then o == Outcome(v, Some(net.members.error), None, false)
                  else if net.members.value == [] then o == Drain(v, net.upload)
                  else
                    && (net.info == Gone ==> o == Outcome(DropLink(v), None, None, false))
                    && (net.info == Disabled ==> o == Unchanged(v))
                    && (net.info == Held || net.info == Refused ==> o == Outcome(v, Some(OtherError), None, false))
                    && (net.info == Accepted ==>
                          var found := QualifyingRows(host, now, db, v.link.value, net.members.value, LimitValue(v));
                          var users := Limited(le, found, v.remote.limit);
                          o == if Sorted(le, v.rows) == users then Unchanged(v) else Replace(v, users, net.upload)))
  {
    hide QualifyingRows, Sorted, Limited, Replace, Drain;
  }

  // ---------- What a sync does, answer by answer ----------

  /** The rule, asked of one player: everyone linked, or the bound account's facts and memberships. */
  predicate Accepts(host: Host, now: Instant, db: Db, link: Link, d: string) {
    && d in db.users
    && (link.tree.grantOnAnyRelation ||
        (link.account.Some? &&
         var user := db.users[d];
         Evaluate(host, now, link.tree, FactsOf(user, db.Relation(link.account.value, user.did)),
                  LoadMemberships(db, link.account.value, user.did))))
  }

  lemma QualifiesTells(host: Host, now: Instant, db: Db, link: Link, d: string)
    ensures Qualifies(host, now, db, link, d) <==> Accepts(host, now, db, link, d)
  {
    hide Evaluate;
  }

  /** The link is gone and its rows with it; what RoleLogic holds is not ours to change. */
  predicate Dropped(v: View, v': View) {
    v'.link == None && v'.rows == {} && v'.remote == v.remote
  }

  /** Both sides hold these users; link and limit are as before. */
  predicate BothHold(v: View, v': View, users: set<string>) {
    v'.link == v.link && v'.rows == users && v'.remote == Remote(users, v.remote.limit)
  }

  /** A player's sync on one link of theirs, by the answer to its one call. */
  predicate PlayerDone(v: View, v': View, accepted: bool, d: string, reply: Reply) {
    if v.link.None? || (d in v.rows) == accepted then v' == v
    else if reply == Gone then Dropped(v, v')
    else if reply != Accepted then v' == v
    else if accepted && d !in v.remote.members && |v.remote.members| >= v.remote.limit then v' == v
    else
      && v'.link == v.link && v'.remote.limit == v.remote.limit
      && v'.rows == (if accepted then v.rows + {d} else v.rows - {d})
      && v'.remote.members == (if accepted then v.remote.members + {d} else v.remote.members - {d})
  }

  lemma PlayerTells(v: View, accepted: bool, d: string, reply: Reply)
    ensures PlayerDone(v, PlayerView(v, accepted, d, reply), accepted, d, reply)
  {
  }

  /** The link grants to nobody, or there is nobody to grant to. */
  predicate Empties(link: Link, members: Result<seq<string>, AppError>) {
    (!link.tree.grantOnAnyRelation && (link.account.None? || link.tree.groups == [])) || members == Ok([])
  }

  /** What an upload of these users leads to, by its answers. */
  predicate Uploaded(v: View, v': View, users: seq<string>, net: UploadNet, r: Result<(), AppError>) {
    if UploadAccepted(|users|, net) then BothHold(v, v', AsSet(users)) && r == Ok(())
    else if UploadGone(|users|, net) then Dropped(v, v') && r == Ok(())
    else if UploadDisabled(|users|, net) || UploadHeld(|users|, net) then v' == v && r == Ok(())
    else v' == v && r == Err(OtherError)
  }

  /** A bulk sync of one link, by the answers it meets. */
  predicate BulkDone(
      host: Host, now: Instant, le: Order, db: Db, v: View, net: BulkNet, v': View, r: Result<(), AppError>)
    requires TotalOrder(le)
  {
    if v.link.None? then v' == v && r == Ok(())
    else if Empties(v.link.value, net.members) then
      if v.rows == {} then v' == v && r == Ok(()) else Uploaded(v, v', [], net.upload, r)
    else
      match net.members
      case Err(e) => v' == v && r == Err(e)
      case Ok(members) =>
        match net.info
        case Gone => Dropped(v, v') && r == Ok(())
        case Disabled => v' == v && r == Ok(())
        case Held => v' == v && r == Err(OtherError)
        case Refused => v' == v && r == Err(OtherError)
        case Accepted =>
          var users := Granted(host, now, le, db, v, members);
          if AsSet(users) == v.rows then v' == v && r == Ok(()) else Uploaded(v, v', users, net.upload, r)
  }

  /** The sync reaches its upload, a drain's included, and RoleLogic holds that write back. */
  predicate HeldAtUpload(host: Host, now: Instant, le: Order, db: Db, v: View, net: BulkNet)
    requires TotalOrder(le)
  {
    v.link.Some? &&
    if Empties(v.link.value, net.members) then v.rows != {} && UploadHeld(0, net.upload)
    else
      && net.members.Ok? && net.info == Accepted
      && var users := Granted(host, now, le, db, v, net.members.value);
         AsSet(users) != v.rows && UploadHeld(|users|, net.upload)
  }

  function ResultOf(o: Outcome): Result<(), AppError> {
    if o.error.Some? then Err(o.error.value) else Ok(())
  }

  lemma ReplaceTells(v: View, users: seq<string>, net: UploadNet)
    ensures Uploaded(v, Replace(v, users, net).view, users, net, ResultOf(Replace(v, users, net)))
    ensures Replace(v, users, net).recheck <==> UploadHeld(|users|, net)
  {
    hide UploadReply, UploadAccepted, UploadGone, UploadDisabled, UploadHeld;
    UploadReplyTells(|users|, net);
  }

  /** What the engine is specified by does that, and asks for a recheck exactly after a held upload. */
  lemma BulkTells(host: Host, now: Instant, le: Order, db: Db, v: View, net: BulkNet)
    requires TotalOrder(le)
    ensures var o := BulkOutcome(host, now, le, db, v, net);
            && BulkDone(host, now, le, db, v, net, o.view, ResultOf(o))
            && (o.recheck <==> HeldAtUpload(host, now, le, db, v, net))
  {
    BulkCases(host, now, le, db, v, net);
    hide BulkOutcome, QualifyingRows, TotalOrder, Replace, Uploaded, UploadHeld, Limited, Sorted;
    ReplaceTells(v, [], net.upload);
    if v.link.Some? && net.members.Ok? {
      var users := Granted(host, now, le, db, v, net.members.value);
      ReplaceTells(v, users, net.upload);
      SortedRowsIff(le, v.rows, QualifyingRows(host, now, db, v.link.value, net.members.value, LimitValue(v)),
                    v.remote.limit);
    }
  }

  /** Comparing the sorted rows with the list to send compares the sets. */
  lemma SortedRowsIff(le: Order, rows: set<string>, found: set<string>, limit: nat)
    requires TotalOrder(le)
    ensures Sorted(le, rows) == Limited(le, found, limit) <==> AsSet(Limited(le, found, limit)) == rows
  {
    LimitedIsSorted(le, found, limit);
    SortedEqualsIff(le, rows, AsSet(Limited(le, found, limit)));
  }

  /**
   * The player's own row exists for every account connected to one of their guilds, with nothing known;
   * rows that existed, and everything else, are as before.
   */
  ghost predicate DefaultsAdded(db: Db, db': Db, d: string, guilds: set<string>) {
    && db' == db.(relations := db'.relations)
    && (forall account, viewer ::
          (account, viewer) in db'.relations <==>
            || (account, viewer) in db.relations
            || (d in db.users && viewer == db.users[d].did
                && exists guild :: guild in guilds && (guild, account) in db.guildAccounts))
    && (forall key :: key in db'.relations ==>
          db'.relations[key] == if key in db.relations then db.relations[key]
                                else RelationRow(false, None, false, 0, 0, 0))
  }

  lemma SeededTells(db: Db, d: string, guilds: set<string>)
    ensures DefaultsAdded(db, Seeded(db, d, guilds), d, guilds)
  {
    var db' := Seeded(db, d, guilds);
    forall account, viewer
      ensures (account, viewer) in db'.relations <==>
                || (account, viewer) in db.relations
                || (d in db.users && viewer == db.users[d].did
                    && exists guild :: guild in guilds && (guild, account) in db.guildAccounts)
    {
      if d in db.users && viewer == db.users[d].did {
        if guild :| guild in guilds && (guild, account) in db.guildAccounts {
          var g := (guild, account);
          assert g in db.guildAccounts && g.0 in guilds && (g.1, viewer) == (account, viewer);
        }
      }
    }
  }

  // ---------- Mirror agreement ----------

  /** The mirror is what RoleLogic holds; without a link there are no rows (the foreign key). */
  predicate Mirrored(v: View) {
    if v.link.Some? then v.rows == v.remote.members else v.rows == {}
  }

  /** Every outcome of a player sync keeps the agreement. */
  lemma PlayerKeepsAgreement(v: View, qualifies: bool, d: string, reply: Reply)
    requires Mirrored(v)
    ensures Mirrored(PlayerView(v, qualifies, d, reply))
    ensures reply in {Disabled, Held, Refused} ==> PlayerView(v, qualifies, d, reply) == v
  {
  }

  /**
   * Every outcome of a bulk sync keeps the agreement. Held, disabled and failed writes leave both
   * sides as they were, and a vanished link takes its rows with it.
   */
  lemma BulkKeepsAgreement(host: Host, now: Instant, le: Order, db: Db, v: View, net: BulkNet)
    requires TotalOrder(le) && Mirrored(v)
    ensures var o := BulkOutcome(host, now, le, db, v, net);
            && Mirrored(o.view)
            && (o.error.Some? || o.recheck ==> o.view == v)
            && (o.view != v ==>
                  net.info == Gone
                  || (o.sent.Some? && UploadReply(|o.sent.value|, net.upload) in {Accepted, Gone}))
  {
    hide QualifyingRows, Limited, Sorted, ChunkCount;
  }

  // ---------- Seeding ----------

  /** Seeding changes nobody's facts: a default row reads like a missing one. */
  lemma SeedingChangesNoFacts(db: Db, d: string, guilds: set<string>, account: string, viewer: string, u: UserRow)
    ensures FactsOf(u, Seeded(db, d, guilds).Relation(account, viewer)) == FactsOf(u, db.Relation(account, viewer))
  {
    if d in db.users && (account, viewer) !in db.relations && (account, viewer) in Seeded(db, d, guilds).relations {
      assert Seeded(db, d, guilds).relations[(account, viewer)] == BASELINE;
    }
  }

  /** So it changes no verdict, for this player or any other, on any link. */
  lemma SeedingChangesNoVerdict(host: Host, now: Instant, db: Db, d: string, guilds: set<string>, link: Link, e: string)
    ensures Qualifies(host, now, Seeded(db, d, guilds), link, e) == Qualifies(host, now, db, link, e)
  {
    hide Evaluate;
    if link.account.Some? && e in db.users {
      var u := db.users[e];
      SeedingChangesNoFacts(db, d, guilds, link.account.value, u.did, u);
    }
  }
}
