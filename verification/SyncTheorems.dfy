/** What the two sync paths achieve together: convergence, fixed points, the preview, held writes. */
module SyncTheorems {
  import opened Wrappers
  import opened Errors
  import opened Rules
  import opened Facts
  import opened ConditionEval
  import opened Collation
  import opened RoleLogic
  import opened SyncModel
  import Sql
  import SqlText
  import RuleSql
  import RuleSqlShape
  import CompilerCorrect
  import opened PlayerOrder
  import opened SyncEngine
  import BulkQuery
  import Jobs
  import JobProtocol
  import CompilerTypes
  import RuleValidator

  // ---------- Player by player ----------

  /**
   * A link of guild `guild` after the players of `order` were synced one after the other, every call
   * accepted; `guilds` gives the guilds each player is in.
   */
  function AfterPlayers(
      host: Host, now: Instant, db: Db, v: View,
      guild: string, order: seq<string>, guilds: string -> set<string>): (Db, View)
  {
    if order == [] then (db, v)
    else
      var d := order[|order| - 1];
      var (db1, v1) := AfterPlayers(host, now, db, v, guild, order[..|order| - 1], guilds);
      var db2 := Seeded(db1, d, guilds(d));
      (db2, if v1.link.None? || guild !in guilds(d) then v1
            else PlayerView(v1, Qualifies(host, now, db2, v1.link.value, d), d, Accepted))
  }

  /** Everyone among the given players the rule accepts. */
  function AcceptedAmong(host: Host, now: Instant, db: Db, link: Link, players: seq<string>): set<string> {
    set d | d in players && Qualifies(host, now, db, link, d)
  }

  /** The view with other rows on both sides. */
  function WithRows(v: View, rows: set<string>): View {
    v.(rows := rows, remote := v.remote.(members := rows))
  }

  lemma PlayerStep(v: View, accepted: set<string>, d: string)
    requires v.link.Some? && Mirrored(v)
    ensures PlayerView(v, d in accepted, d, Accepted) == WithRows(v, StepRows(v.rows, accepted, v.remote.limit, d))
  {
    if d !in accepted && d !in v.rows {
      assert v.rows - {d} == v.rows;
    }
  }

  /** On a mirrored link the players' syncs add and remove as `RowsAfter` says, and change no verdict. */
  lemma {:induction false} PlayersMoveRows(
      host: Host, now: Instant, db: Db, v: View,
      guild: string, order: seq<string>, guilds: string -> set<string>, accepted: set<string>)
    requires forall d :: d in order ==> guild in guilds(d)
    requires v.link.Some? && Mirrored(v)
    requires forall d :: d in order ==> (d in accepted <==> Qualifies(host, now, db, v.link.value, d))
    ensures var (dbN, vN) := AfterPlayers(host, now, db, v, guild, order, guilds);
            && vN == WithRows(v, RowsAfter(v.rows, accepted, v.remote.limit, order))
            && forall d :: Qualifies(host, now, dbN, v.link.value, d) == Qualifies(host, now, db, v.link.value, d)
  {
    hide Qualifies, Seeded, PlayerView, StepRows;
    if order != [] {
      var before, d := order[..|order| - 1], order[|order| - 1];
      assert order == before + [d];
      PlayersMoveRows(host, now, db, v, guild, before, guilds, accepted);
      var (db1, v1) := AfterPlayers(host, now, db, v, guild, before, guilds);
      forall e {
        SeedingChangesNoVerdict(host, now, db1, d, guilds(d), v.link.value, e);
      }
      PlayerStep(v1, accepted, d);
    }
  }

  // ---------- Against the bulk sync ----------

  /** The rule means the same to both paths for every linked member. */
  predicate PathsAgree(host: Host, now: Instant, db: Db, link: Link, members: seq<string>) {
    !link.tree.grantOnAnyRelation && link.account.Some? ==>
      && RunnableTree(host, link.tree)
      && forall d :: d in members && d in db.users ==>
           BulkQuery.RuleAgreesOn(host, now, db, link.account.value, link.tree, d)
  }

  /** Compiler correctness, as the sync uses it. */
  lemma BulkRowsAreAccepted(host: Host, now: Instant, db: Db, link: Link, members: seq<string>, tail: seq<Sql.V>)
    requires PathsAgree(host, now, db, link, members)
    ensures QualifyingRows(host, now, db, link, members, tail) == AcceptedAmong(host, now, db, link, members)
  {
    if !link.tree.grantOnAnyRelation && link.account.Some? {
      BulkQuery.QuerySelectsWhatTheEvaluatorAccepts(host, now, db, link.account.value, link.tree, members, tail);
    }
  }

  lemma NobodyIsAccepted(host: Host, now: Instant, db: Db, link: Link, players: seq<string>)
    requires GrantsNobody(link)
    ensures AcceptedAmong(host, now, db, link, players) == {}
  {
  }

  /** Everyone a bulk sync finds before its limit, split conditions included. */
  function FoundByBulk(host: Host, now: Instant, db: Db, v: View, members: seq<string>): set<string>
    requires v.link.Some?
  {
    if GrantsNobody(v.link.value) || members == [] then {}
    else QualifyingRows(host, now, db, v.link.value, members, LimitValue(v))
  }

  /** One bulk sync, all calls accepted: the link ends with whom the query finds, up to its limit. */
  lemma BulkEnds(host: Host, now: Instant, le: Order, db: Db, v: View, members: seq<string>)
    requires TotalOrder(le) && v.link.Some? && Mirrored(v)
    ensures var o := BulkOutcome(host, now, le, db, v, BulkNet(Ok(members), Accepted, ALL_ACCEPTED));
            && o.error.None? && !o.recheck
            && o.view == WithRows(v, Least(le, FoundByBulk(host, now, db, v, members), v.remote.limit))
  {
    hide QualifyingRows, TotalOrder, UploadReply;
    UploadsAreAccepted();
    LimitedIsSubset(le, {}, v.remote.limit);
    if !GrantsNobody(v.link.value) && members != [] {
      var users := Granted(host, now, le, db, v, members);
      if Sorted(le, v.rows) == users {
        assert forall d :: d in v.rows <==> d in Sorted(le, v.rows);
        assert v.rows == AsSet(users);
      }
    } else {
      assert AsSet([]) == {};
    }
  }

  lemma UploadsAreAccepted()
    ensures forall n :: UploadReply(n, ALL_ACCEPTED) == Accepted
  {
  }

  lemma FoundIsAccepted(host: Host, now: Instant, db: Db, v: View, members: seq<string>)
    requires v.link.Some? && PathsAgree(host, now, db, v.link.value, members)
    ensures FoundByBulk(host, now, db, v, members) == AcceptedAmong(host, now, db, v.link.value, members)
  {
    hide QualifyingRows, Qualifies, PathsAgree;
    if GrantsNobody(v.link.value) {
      NobodyIsAccepted(host, now, db, v.link.value, members);
    } else if members != [] {
      BulkRowsAreAccepted(host, now, db, v.link.value, members, LimitValue(v));
    }
  }

  /** One bulk sync, all calls accepted: the link ends with the qualifying members, up to its limit. */
  lemma BulkResult(host: Host, now: Instant, le: Order, db: Db, v: View, members: seq<string>)
    requires TotalOrder(le) && v.link.Some? && Mirrored(v)
    requires PathsAgree(host, now, db, v.link.value, members)
    ensures var o := BulkOutcome(host, now, le, db, v, BulkNet(Ok(members), Accepted, ALL_ACCEPTED));
            var users := AsSet(Limited(le, AcceptedAmong(host, now, db, v.link.value, members), v.remote.limit));
            && o.error.None? && !o.recheck
            && o.view == WithRows(v, users)
  {
    hide BulkOutcome, FoundByBulk, AcceptedAmong, PathsAgree;
    BulkEnds(host, now, le, db, v, members);
    FoundIsAccepted(host, now, db, v, members);
  }

  /** Every order of syncing each member once leaves the link as one bulk sync would, all calls accepted. */
  ghost predicate OrdersMatchBulk(
      host: Host, now: Instant, le: Order, db: Db, v: View,
      guild: string, members: seq<string>, guilds: string -> set<string>)
    requires TotalOrder(le)
  {
    forall order :: OnceEach(order, AsSet(members)) ==>
      AfterPlayers(host, now, db, v, guild, order, guilds).1
      == BulkOutcome(host, now, le, db, v, BulkNet(Ok(members), Accepted, ALL_ACCEPTED)).view
  }

  /**
   * The two paths, whatever the rule and however its clause and the evaluator differ: every order of
   * player syncs ends where one bulk sync does if and only if the orders are confluent and their common
   * end is what the bulk query keeps.
   */
  lemma OrdersMatchBulkIff(
      host: Host, now: Instant, le: Order, db: Db, v: View,
      guild: string, members: seq<string>, guilds: string -> set<string>)
    requires forall d :: d in members ==> guild in guilds(d)
    requires TotalOrder(le) && v.link.Some? && Mirrored(v)
    ensures var accepted := AcceptedAmong(host, now, db, v.link.value, members);
            var kept := Least(le, FoundByBulk(host, now, db, v, members), v.remote.limit);
            OrdersMatchBulk(host, now, le, db, v, guild, members, guilds)
            <==> Confluent(v.rows, accepted, AsSet(members), v.remote.limit)
                 && kept == End(v.rows, accepted, AsSet(members), v.remote.limit)
  {
    hide Qualifies, BulkOutcome, AfterPlayers, FoundByBulk, RowsAfter, Confluent, End, Least, TotalOrder;
    var accepted := AcceptedAmong(host, now, db, v.link.value, members);
    var kept := Least(le, FoundByBulk(host, now, db, v, members), v.remote.limit);
    BulkEnds(host, now, le, db, v, members);
    OrdersEndAtIff(le, v.rows, accepted, AsSet(members), v.remote.limit, kept);
    forall order | OnceEach(order, AsSet(members))
      ensures AfterPlayers(host, now, db, v, guild, order, guilds).1 == WithRows(v, kept)
         <==> RowsAfter(v.rows, accepted, v.remote.limit, order) == kept
    {
      MembersMoveRows(host, now, db, v, guild, members, order, guilds);
    }
  }

  /**
   * The two paths converge, exactly. From a mirror that agrees with RoleLogic, every order of syncing
   * each member once leaves the link as one bulk sync would, all calls accepted, if and only if
   * `OrderIndependent` holds of the old rows, the qualifying members and the limit; and then so does
   * every order that syncs members again.
   */
  lemma TwoPathsConverge(
      host: Host, now: Instant, le: Order, db: Db, v: View,
      guild: string, members: seq<string>, guilds: string -> set<string>)
    requires forall d :: d in members ==> guild in guilds(d)
    requires TotalOrder(le) && v.link.Some? && Mirrored(v)
    requires PathsAgree(host, now, db, v.link.value, members)
    ensures var accepted := AcceptedAmong(host, now, db, v.link.value, members);
            var bulk := BulkOutcome(host, now, le, db, v, BulkNet(Ok(members), Accepted, ALL_ACCEPTED)).view;
            && (OrderIndependent(le, v.rows, accepted, AsSet(members), v.remote.limit)
                <==> OrdersMatchBulk(host, now, le, db, v, guild, members, guilds))
            && (OrderIndependent(le, v.rows, accepted, AsSet(members), v.remote.limit)
                ==> forall order :: AsSet(order) == AsSet(members) ==>
                      AfterPlayers(host, now, db, v, guild, order, guilds).1 == bulk)
  {
    hide Qualifies, BulkOutcome, AfterPlayers, PathsAgree, OrderIndependent, RowsAfter, FoundByBulk;
    hide Confluent, End, OrdersMatchBulk, TotalOrder;
    var accepted := AcceptedAmong(host, now, db, v.link.value, members);
    BulkResult(host, now, le, db, v, members);
    FoundIsAccepted(host, now, db, v, members);
    OrdersMatchBulkIff(host, now, le, db, v, guild, members, guilds);
    OrderIndependentIff(le, v.rows, accepted, AsSet(members), v.remote.limit);
    if OrderIndependent(le, v.rows, accepted, AsSet(members), v.remote.limit) {
      forall order | AsSet(order) == AsSet(members)
        ensures AfterPlayers(host, now, db, v, guild, order, guilds).1
             == BulkOutcome(host, now, le, db, v, BulkNet(Ok(members), Accepted, ALL_ACCEPTED)).view
      {
        MembersMoveRows(host, now, db, v, guild, members, order, guilds);
        EveryOrderConverges(le, v.rows, accepted, AsSet(members), v.remote.limit, order);
      }
    }
  }

  /** The rule can run, and no member's timestamp lies on a future boundary of it. */
  predicate OnlyWidens(host: Host, now: Instant, db: Db, link: Link, members: seq<string>) {
    !link.tree.grantOnAnyRelation && link.account.Some? ==>
      && RunnableTree(host, link.tree)
      && forall d :: d in members && d in db.users ==>
           CompilerCorrect.NoFutureBoundary(
             link.tree, BulkQuery.RowEnv(host, now, db, link.account.value, d, []))
  }

  lemma AcceptedAreFound(host: Host, now: Instant, db: Db, v: View, members: seq<string>)
    requires v.link.Some? && OnlyWidens(host, now, db, v.link.value, members)
    ensures AcceptedAmong(host, now, db, v.link.value, members) <= FoundByBulk(host, now, db, v, members)
                                                                <= AsSet(members)
  {
    hide BulkQuery.AcceptedByEvaluator, BulkQuery.RuleRows, CompilerCorrect.NoFutureBoundary;
    var link := v.link.value;
    if GrantsNobody(link) {
      NobodyIsAccepted(host, now, db, link, members);
    } else if members != [] && !link.tree.grantOnAnyRelation {
      var account := link.account.value;
      var found := BulkQuery.RuleRows(host, now, db, account, link.tree, members, LimitValue(v));
      forall d
        ensures d in members && Qualifies(host, now, db, link, d) ==> d in found
        ensures d in found ==> d in members
      {
        BulkQuery.AcceptedAreLinked(host, now, db, account, link.tree, d);
        RowsAreLinked(host, now, db, account, link.tree, members, LimitValue(v), d);
        if d in members && Qualifies(host, now, db, link, d) {
          BulkQuery.AcceptedMembersAreSelected(host, now, db, account, link.tree, members, LimitValue(v), d);
        }
        if d in db.users && d !in members {
          BulkQuery.NonMemberIsNotSelected(host, now, db, account, link.tree, members, LimitValue(v), d);
        }
      }
    }
  }

  lemma RowsAreLinked(
      host: Host, now: Instant, db: Db, account: string,
      tree: RuleTree, members: seq<string>, tail: seq<Sql.V>, d: string)
    ensures d in BulkQuery.RuleRows(host, now, db, account, tree, members, tail) ==> d in db.users
  {
    hide RuleSql.WhereExpr, RuleSql.WhereBinds, Sql.Holds;
  }

  /**
   * When unowned lists and `not_in` lists without strings make the query find members the evaluator
   * refuses: every order still ends where the bulk sync does if and only if `OrderIndependent` holds
   * and the limit keeps the same of those found as of those accepted. Otherwise such a member is added
   * by each bulk sync and removed by each sync of their own.
   */
  lemma WiderQueryConvergesIff(
      host: Host, now: Instant, le: Order, db: Db, v: View,
      guild: string, members: seq<string>, guilds: string -> set<string>)
    requires forall d :: d in members ==> guild in guilds(d)
    requires TotalOrder(le) && v.link.Some? && Mirrored(v)
    requires OnlyWidens(host, now, db, v.link.value, members)
    ensures var accepted := AcceptedAmong(host, now, db, v.link.value, members);
            var found := FoundByBulk(host, now, db, v, members);
            OrdersMatchBulk(host, now, le, db, v, guild, members, guilds)
            <==> OrderIndependent(le, v.rows, accepted, AsSet(members), v.remote.limit)
                 && Least(le, found, v.remote.limit) == Least(le, accepted, v.remote.limit)
  {
    hide OnlyWidens, FoundByBulk, AcceptedAmong, OrdersMatchBulk, Confluent, End, OrderIndependent, Least, TotalOrder;
    AcceptedAreFound(host, now, db, v, members);
    OrdersMatchBulkIff(host, now, le, db, v, guild, members, guilds);
    EndOfLargerIff(le, v.rows, AcceptedAmong(host, now, db, v.link.value, members),
                   FoundByBulk(host, now, db, v, members), AsSet(members), v.remote.limit);
  }

  lemma MembersMoveRows(
      host: Host, now: Instant, db: Db, v: View,
      guild: string, members: seq<string>, order: seq<string>, guilds: string -> set<string>)
    requires forall d :: d in members ==> guild in guilds(d)
    requires v.link.Some? && Mirrored(v) && AsSet(order) == AsSet(members)
    ensures AfterPlayers(host, now, db, v, guild, order, guilds).1
         == WithRows(v, RowsAfter(v.rows, AcceptedAmong(host, now, db, v.link.value, members), v.remote.limit, order))
  {
    hide Qualifies, AfterPlayers, RowsAfter;
    assert forall d :: d in order <==> d in AsSet(order);
    assert forall d :: d in members <==> d in AsSet(members);
    PlayersMoveRows(host, now, db, v, guild, order, guilds, AcceptedAmong(host, now, db, v.link.value, members));
  }

  /**
   * The engine does it: synced through its own method, once each or more often and in any order, the
   * members of a link end where one bulk sync of that link would.
   */
  method SyncEveryMember(
      engine: Engine, key: LinkKey, members: seq<string>, order: seq<string>, guilds: string -> set<string>)
    requires key in engine.links && Mirrored(engine.ViewOf(key)) && TotalOrder(engine.le)
    requires forall d :: d in members ==> key.guild in guilds(d)
    requires PathsAgree(engine.host, engine.jobs.now, engine.db, engine.links[key], members)
    requires AsSet(order) == AsSet(members)
    requires var v := engine.ViewOf(key);
             var accepted := AcceptedAmong(engine.host, engine.jobs.now, engine.db, engine.links[key], members);
             OrderIndependent(engine.le, v.rows, accepted, AsSet(members), v.remote.limit)
    modifies engine
    ensures engine.ViewOf(key)
         == BulkOutcome(engine.host, engine.jobs.now, engine.le, old(engine.db), old(engine.ViewOf(key)),
                        BulkNet(Ok(members), Accepted, ALL_ACCEPTED)).view
  {
    hide OrderIndependent, PathsAgree, Qualifies, BulkOutcome;
    TwoPathsConverge(engine.host, engine.jobs.now, engine.le, engine.db, engine.ViewOf(key),
                     key.guild, members, guilds);
    SyncPlayers(engine, key, order, guilds);
  }

  /** The players of `order`, one after the other, through `sync_for_player`. */
  method SyncPlayers(engine: Engine, key: LinkKey, order: seq<string>, guilds: string -> set<string>)
    modifies engine
    ensures (engine.db, engine.ViewOf(key))
         == AfterPlayers(engine.host, engine.jobs.now, old(engine.db), old(engine.ViewOf(key)),
                         key.guild, order, guilds)
  {
    hide Qualifies, PlayerView, Seeded;
    for k := 0 to |order|
      invariant (engine.db, engine.ViewOf(key))
             == AfterPlayers(engine.host, engine.jobs.now, old(engine.db), old(engine.ViewOf(key)),
                             key.guild, order[..k], guilds)
    {
      assert order[..k + 1][..k] == order[..k];
      var _ := engine.SyncForPlayer(order[k], Ok(guilds(order[k])), map[key := Accepted]);
    }
    assert order[..|order|] == order;
  }

  /** A user without anything to report. */
  const LINKED := UserRow("did:b", "b.example", None, false, None, None, None, false, false, 0, 0, 0, None)

  /**
   * The limit is needed, and so is the order when it is exceeded: one slot, held by a member who no
   * longer qualifies. Synced before that one is removed, the new member is turned away.
   */
  lemma OverLimitOrderMatters(host: Host, now: Instant, guild: string, guilds: string -> set<string>)
    requires guild in guilds("a") && guild in guilds("b")
    ensures var db := Db(map["b" := LINKED], map[], {}, map[], {}, map[], {});
            var v := View(Some(Link(None, RuleTree(true, []))), {"a"}, Remote({"a"}, 1));
            && AfterPlayers(host, now, db, v, guild, ["a", "b"], guilds).1.rows == {"b"}
            && AfterPlayers(host, now, db, v, guild, ["b", "a"], guilds).1.rows == {}
  {
    var db := Db(map["b" := LINKED], map[], {}, map[], {}, map[], {});
    var v := View(Some(Link(None, RuleTree(true, []))), {"a"}, Remote({"a"}, 1));
    assert "a" !in db.users && "b" in db.users;
    assert Seeded(db, "a", guilds("a")) == db && Seeded(db, "b", guilds("b")) == db by {
      assert Seeded(db, "b", guilds("b")).relations == db.relations;
    }
    assert ["a", "b"][..1] == ["a"] && ["b", "a"][..1] == ["b"] && ["a"][..0] == [] && ["b"][..0] == [];
    assert AfterPlayers(host, now, db, v, guild, [], guilds) == (db, v);
    var removed := v.(rows := {}, remote := v.remote.(members := {}));
    assert v.rows - {"a"} == {};
    assert AfterPlayers(host, now, db, v, guild, ["a"], guilds) == (db, removed);
    assert AfterPlayers(host, now, db, v, guild, ["b"], guilds) == (db, v);
  }

  // ---------- Fixed point and preview ----------

  /**
   * A second bulk sync on unchanged inputs sends nothing and changes nothing, whatever RoleLogic would
   * answer. It needs no agreement between the two paths.
   */
  lemma BulkIsIdempotent(host: Host, now: Instant, le: Order, db: Db, v: View, members: seq<string>, upload: UploadNet)
    requires TotalOrder(le)
    ensures var first := BulkOutcome(host, now, le, db, v, BulkNet(Ok(members), Accepted, ALL_ACCEPTED));
            var second := BulkOutcome(host, now, le, db, first.view, BulkNet(Ok(members), Accepted, upload));
            second == Unchanged(first.view)
  {
    hide QualifyingRows, Sorted, Limited;
    if v.link.Some? && !GrantsNobody(v.link.value) && members != [] {
      LimitedIsSorted(le, QualifyingRows(host, now, db, v.link.value, members, LimitValue(v)), v.remote.limit);
    } else {
      assert AsSet([]) == {};
    }
  }

  /** `preview_count_for`: None when the member list is unavailable. */
  function PreviewMatching(
      host: Host, now: Instant, db: Db, link: Link, members: Result<seq<string>, AppError>): Option<nat>
  {
    if GrantsNobody(link) then Some(0)
    else if members.Err? then None
    else if members.value == [] then Some(0)
    else Some(|QualifyingRows(host, now, db, link, members.value, [])|)
  }

  method PreviewCountFor(host: Host, now: Instant, db: Db, link: Link, members: Result<seq<string>, AppError>)
    returns (matching: Option<nat>)
    ensures matching == PreviewMatching(host, now, db, link, members)
    ensures matching ==
            if !link.tree.grantOnAnyRelation && (link.account.None? || link.tree.groups == []) then Some(0)
            else if members.Err? then None
            else if members.value == [] then Some(0)
            else Some(|QualifyingRows(host, now, db, link, members.value, [])|)
  {
    if !link.tree.grantOnAnyRelation && (link.account.None? || link.tree.groups == []) {
      return Some(0);
    }
    if members.Err? {
      return None;
    }
    if members.value == [] {
      return Some(0);
    }
    if link.tree.grantOnAnyRelation {
      return Some(|set d | d in db.users && d in members.value|);
    }
    var text, binds := RuleSql.BuildRuleWhere(link.tree, 2);
    var params := BulkQuery.BindAll(link.account.value, members.value, binds, []);
    assert params == BulkQuery.QueryParams(link.account.value, members.value, RuleSql.WhereBinds(link.tree), []);
    BulkQuery.QueryReadsBack(link.tree);
    var query := SqlText.Parse(BulkQuery.QueryText(text));
    matching := Some(|BulkQuery.SelectIds(host, now, db, link.account.value, query.value, params)|);
  }

  /** The preview's query, sent without a limit, has the rows of the sync's query. */
  lemma LimitDoesNotMatterToTheRule(
      host: Host, now: Instant, db: Db, account: string, tree: RuleTree, members: seq<string>, tail: seq<Sql.V>)
    ensures BulkQuery.RuleRows(host, now, db, account, tree, members, tail)
         == BulkQuery.RuleRows(host, now, db, account, tree, members, [])
  {
    hide RuleSql.WhereExpr, RuleSql.WhereBinds;
    var query := BulkQuery.QueryExpr(RuleSql.WhereExpr(tree, 2));
    var binds := RuleSql.WhereBinds(tree);
    var with := BulkQuery.QueryParams(account, members, binds, tail);
    var without := BulkQuery.QueryParams(account, members, binds, []);
    QueryLooksAt(tree);
    assert with[..2 + |binds|] == without;
    forall d | d in db.users
      ensures Sql.Eval(query, BulkQuery.RowEnv(host, now, db, account, d, with))
           == Sql.Eval(query, BulkQuery.RowEnv(host, now, db, account, d, without))
    {
      var env := BulkQuery.RowEnv(host, now, db, account, d, without);
      assert Sql.SameAt(Sql.ParamsOf(query), without, with);
      Sql.EvalReadsOnlyItsParams(query, env, with);
      assert env.(params := with) == BulkQuery.RowEnv(host, now, db, account, d, with);
    }
  }

  lemma QueryLooksAt(tree: RuleTree)
    ensures forall i :: i in Sql.ParamsOf(BulkQuery.QueryExpr(RuleSql.WhereExpr(tree, 2)))
              ==> 2 <= i <= 2 + |RuleSql.WhereBinds(tree)|
  {
    hide RuleSql.WhereExpr, RuleSql.WhereBinds;
    var w := RuleSql.WhereExpr(tree, 2);
    RuleSqlShape.PlaceholdersMatchBinds(tree, 2);
    SqlText.PlaceholdersOfPrinted(w);
    assert Sql.ParamsOf(Sql.CastTextArray(Sql.Param(2))) == [2];
    assert Sql.ParamsOf(BulkQuery.MemberFilter()) == [2];
    assert Sql.ParamsOf(Sql.Paren(w)) == Sql.ParamsOf(w);
    assert Sql.ParamsOf(BulkQuery.QueryExpr(w)) == [2] + Sql.ParamsOf(w);
  }

  /** An accepted bulk sync that gets as far as its query ends with the ids it returned. */
  lemma GrantedAreTheRows(host: Host, now: Instant, le: Order, db: Db, v: View, members: seq<string>)
    requires TotalOrder(le) && v.link.Some? && !GrantsNobody(v.link.value) && members != []
    ensures BulkOutcome(host, now, le, db, v, BulkNet(Ok(members), Accepted, ALL_ACCEPTED)).view.rows
         == AsSet(Granted(host, now, le, db, v, members))
  {
    hide QualifyingRows, Limited;
    var users := Granted(host, now, le, db, v, members);
    if Sorted(le, v.rows) == users {
      assert forall d :: d in v.rows <==> d in Sorted(le, v.rows);
      assert v.rows == AsSet(users);
    }
  }

  lemma PreviewCountsTheRows(host: Host, now: Instant, db: Db, v: View, members: seq<string>)
    requires v.link.Some? && !GrantsNobody(v.link.value) && members != []
    ensures PreviewMatching(host, now, db, v.link.value, Ok(members))
         == Some(|QualifyingRows(host, now, db, v.link.value, members, LimitValue(v))|)
  {
    var link := v.link.value;
    if link.account.Some? {
      LimitDoesNotMatterToTheRule(host, now, db, link.account.value, link.tree, members, LimitValue(v));
    }
    hide BulkQuery.RuleRows;
  }

  /**
   * What the preview promised is what a bulk sync grants: `matching`, cut off at the link's limit. It
   * holds for every rule, since both send the same clause.
   */
  lemma PreviewIsWhatIsGranted(host: Host, now: Instant, le: Order, db: Db, v: View, members: seq<string>)
    requires TotalOrder(le) && v.link.Some?
    ensures var o := BulkOutcome(host, now, le, db, v, BulkNet(Ok(members), Accepted, ALL_ACCEPTED));
            var matching := PreviewMatching(host, now, db, v.link.value, Ok(members)).value;
            |o.view.rows| == if matching <= v.remote.limit then matching else v.remote.limit
  {
    if !GrantsNobody(v.link.value) && members != [] {
      GrantedAreTheRows(host, now, le, db, v, members);
      PreviewCountsTheRows(host, now, db, v, members);
      hide BulkOutcome, PreviewMatching, QualifyingRows, Limited;
      LimitedIsSubset(le, QualifyingRows(host, now, db, v.link.value, members, LimitValue(v)), v.remote.limit);
    } else {
      assert AsSet([]) == {};
    }
  }

  // ---------- Held writes ----------

  /** The queue after a bulk sync, as the engine leaves it. */
  function QueueAfter(q: Jobs.Queue, key: LinkKey, o: Outcome): Jobs.Queue {
    if o.recheck then Jobs.InsertUnlessQueued(q, Jobs.ConfigSync(key.guild, key.role)) else q
  }

  /**
   * A held write is never forgotten and never multiplied. When RoleLogic holds back the write a bulk sync
   * reaches, a drain's included, nothing of the link changed, a sync of it is waiting and due within
   * twenty minutes, and there are as many waiting as before, or one. No other sync touches the queue.
   */
  lemma HeldWriteComesBack(
      host: Host, now: Instant, le: Order, db: Db, key: LinkKey, v: View, net: BulkNet, s: JobProtocol.State)
    requires TotalOrder(le) && JobProtocol.Inv(s)
    ensures var o := BulkOutcome(host, now, le, db, v, net);
            var task, q := Jobs.ConfigSync(key.guild, key.role), QueueAfter(s.q, key, o);
            var before := |Jobs.PendingCopies(s.q, task)|;
            if HeldAtUpload(host, now, le, db, v, net) then
              && o.view == v && o.error == None
              && |Jobs.PendingCopies(q, task)| == (if before > 1 then before else 1)
              && exists id :: id in q.rows && q.rows[id].status.Pending? && q.rows[id].task == task
                              && q.rows[id].nextRunAt <= q.now + 20 * 60 * Jobs.SECOND
            else q == s.q
  {
    BulkTells(host, now, le, db, v, net);
    if HeldAtUpload(host, now, le, db, v, net) {
      HeldChangesNothing(host, now, le, db, v, net);
      hide BulkOutcome, HeldAtUpload, Jobs.PendingCopies, JobProtocol.Inv, AllSoon;
      InvKnowsTheQueue(s);
      Jobs.RecheckKeepsOne(s.q, Jobs.ConfigSync(key.guild, key.role));
      RecheckDue(s.q, key);
    }
  }

  lemma InvKnowsTheQueue(s: JobProtocol.State)
    requires JobProtocol.Inv(s)
    ensures s.q.nextId !in s.q.rows
    ensures AllSoon(s.q)
  {
    assert JobProtocol.RowOk(s.q, s.q.nextId);
    forall id | id in s.q.rows && s.q.rows[id].status.Pending?
      ensures s.q.rows[id].nextRunAt <= s.q.now + 20 * 60 * Jobs.SECOND
    {
      assert JobProtocol.RowOk(s.q, id);
    }
  }

  lemma RecheckDue(q: Jobs.Queue, key: LinkKey)
    requires AllSoon(q)
    ensures var task := Jobs.ConfigSync(key.guild, key.role);
            var q' := Jobs.InsertUnlessQueued(q, task);
            exists id :: id in q'.rows && q'.rows[id].status.Pending? && q'.rows[id].task == task
                         && q'.rows[id].nextRunAt <= q'.now + 20 * 60 * Jobs.SECOND
  {
    hide Jobs.InsertUnlessQueued, AllSoon;
    RecheckTells(q, key);
  }

  lemma HeldChangesNothing(host: Host, now: Instant, le: Order, db: Db, v: View, net: BulkNet)
    requires TotalOrder(le) && BulkOutcome(host, now, le, db, v, net).recheck
    ensures BulkOutcome(host, now, le, db, v, net).view == v && BulkOutcome(host, now, le, db, v, net).error == None
  {
    hide QualifyingRows, Sorted, Limited, UploadReply;
  }

  // ---------- From the editor to the database ----------

  /**
   * A rule the validator accepted runs in both back ends: its query is well typed for the values it
   * binds, and on no row does it stop with an error.
   */
  lemma SavedRuleRuns(
      host: Host, now: Instant, db: Db, account: string, body: RuleValidator.Body, members: seq<string>, d: string)
    requires RuleValidator.Acceptable(host, body) && d in db.users
    ensures var tree := RuleValidator.Accepted(host, body).tree;
            var binds := RuleSql.WhereBinds(tree);
            var env := BulkQuery.RowEnv(host, now, db, account, d, BulkQuery.QueryParams(account, members, binds, []));
            && RunnableTree(host, tree)
            && Sql.TypeOf(RuleSql.WhereExpr(tree, 2), [Sql.TText, Sql.TTexts] + CompilerTypes.TypesOf(binds))
               == Some(Sql.TBool)
            && Sql.IsTri(Sql.Eval(RuleSql.WhereExpr(tree, 2), env))
  {
    hide RuleSql.WhereExpr, RuleSql.WhereBinds, RuleValidator.Accepted, RuleValidator.Acceptable, WellFormed;
    RuleValidator.AcceptedTreeRuns(host, body);
    var tree := RuleValidator.Accepted(host, body).tree;
    var binds := RuleSql.WhereBinds(tree);
    var types := [Sql.TText, Sql.TTexts] + CompilerTypes.TypesOf(binds);
    assert types[2..2 + |binds|] == CompilerTypes.TypesOf(binds);
    CompilerTypes.WhereIsTyped(tree, types, 2);
    BulkQuery.RuleIsBound(tree, account, members, []);
    var env := BulkQuery.RowEnv(host, now, db, account, d, BulkQuery.QueryParams(account, members, binds, []));
    CompilerCorrect.WhereMeaning(tree, 2, env);
  }
}
