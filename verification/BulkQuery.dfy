/**
 * The query around a compiled rule: the member filter, the spliced clause and the bound values, as
 * `sync_for_role_link` and the preview send it.
 */
module BulkQuery {
  import opened Wrappers
  import opened Rules
  import opened Facts
  import opened ConditionEval
  import opened Sql
  import opened SqlText
  import opened RuleSql
  import opened RuleSqlShape
  import opened CompilerCorrect

  /** bu.discord_id = ANY($2::text[]) AND ({rule_where}) */
  function QueryText(ruleWhere: Text): Text {
    [ColumnName(BuDiscordId), Op(Cmp(CmpEq)), AnyWord, LParen, Placeholder(2), TextArrayCast, RParen,
     Op(AndOp), LParen] + ruleWhere + [RParen]
  }

  function MemberFilter(): Expr {
    Quantified(CmpEq, false, Col(BuDiscordId), CastTextArray(Param(2)))
  }

  function QueryExpr(ruleWhere: Expr): Expr {
    Binary(AndOp, MemberFilter(), Paren(ruleWhere))
  }

  /** $1 is the account (in the join), $2 the members, then the rule's values, then what the caller adds. */
  function QueryParams(account: string, members: seq<string>, binds: seq<Bind>, tail: seq<V>): seq<V> {
    [VText(account), VTexts(members)] + ValuesOf(binds) + tail
  }

  /** The values are bound one after the other in the order of the placeholders. */
  method BindAll(account: string, members: seq<string>, binds: seq<Bind>, tail: seq<V>) returns (params: seq<V>)
    ensures params == QueryParams(account, members, binds, tail)
  {
    params := [VText(account)];
    params := params + [VTexts(members)];
    for k := 0 to |binds|
      invariant params == [VText(account), VTexts(members)] + ValuesOf(binds[..k])
    {
      params := params + [binds[k].Value()];
    }
    assert binds[..|binds|] == binds;
    params := params + tail;
  }

  /** One joined row: the user, and the account's relation to them when there is one. */
  function RowEnv(host: Host, now: Instant, db: Db, account: string, id: string, params: seq<V>): Env
    requires id in db.users
  {
    var user := db.users[id];
    Env(host, now, db, id, user, db.Relation(account, user.did), None, params)
  }

  /** The rows a query keeps, as distinct Discord ids. */
  function SelectIds(host: Host, now: Instant, db: Db, account: string, query: Expr, params: seq<V>): set<string> {
    set id | id in db.users && Holds(query, RowEnv(host, now, db, account, id, params))
  }

  lemma MemberFilterReads()
    ensures Print(MemberFilter())
         == [ColumnName(BuDiscordId), Op(Cmp(CmpEq)), AnyWord, LParen, Placeholder(2), TextArrayCast, RParen]
    ensures Fits(MemberFilter())
  {
    assert Print(CastTextArray(Param(2))) == [Placeholder(2), TextArrayCast];
    assert Print(Col(BuDiscordId)) == [ColumnName(BuDiscordId)];
  }

  lemma QueryPrints(w: Expr)
    ensures Print(QueryExpr(w)) == QueryText(Print(w))
  {
    MemberFilterReads();
    hide MemberFilter;
    assert Print(Paren(w)) == [LParen] + Print(w) + [RParen];
    assert Print(QueryExpr(w)) == Print(MemberFilter()) + [Op(AndOp)] + Print(Paren(w));
  }

  lemma QueryFits(w: Expr)
    requires Fits(w)
    ensures Fits(QueryExpr(w))
  {
    MemberFilterReads();
    assert Fits(Paren(w));
  }

  /** The parentheses around the spliced clause keep its ORs below the member filter's AND. */
  lemma QueryReadsBack(tree: RuleTree)
    ensures Parse(QueryText(Print(WhereExpr(tree, 2)))) == Some(QueryExpr(WhereExpr(tree, 2)))
  {
    hide WhereExpr, Print, Fits, QueryText, QueryExpr, Parse;
    var w := WhereExpr(tree, 2);
    WhereFits(tree, 2);
    QueryPrints(w);
    QueryFits(w);
    ParsePrinted(QueryExpr(w));
  }

  lemma QueryMeaning(w: Expr, env: Env, members: seq<string>)
    requires |env.params| >= 2 && env.params[1] == VTexts(members)
    requires IsTri(Eval(w, env))
    ensures Holds(QueryExpr(w), env) <==> env.discordId in members && Holds(w, env)
  {
    assert Eval(Param(2), env) == VTexts(members);
    LeafMeaning(BuDiscordId, 0, env);
    hide Eval;
    QuantifiedMeaning(CmpEq, false, Col(BuDiscordId), 2, env, members);
    AnyOf(env.discordId, members);
    ParenMeaning(w, env);
    BinaryMeaning(AndOp, MemberFilter(), Paren(w), env);
  }

  /**
   * The index after the rule's values is the caller's: the query does not mention it, and it carries
   * the value bound there (the row limit).
   */
  lemma LimitIndexIsFresh(tree: RuleTree, env: Env, account: string, members: seq<string>, limit: V)
    requires env.params == QueryParams(account, members, WhereBinds(tree), [limit])
    ensures var limitIdx := 2 + |WhereBinds(tree)| + 1;
            && Eval(Param(limitIdx), env) == limit
            && limitIdx !in Placeholders(Print(WhereExpr(tree, 2)))
            && |env.params| == limitIdx
  {
    hide WhereBinds, WhereExpr;
    PlaceholdersMatchBinds(tree, 2);
  }

  lemma RuleIsBound(tree: RuleTree, account: string, members: seq<string>, tail: seq<V>)
    ensures Bound(QueryParams(account, members, WhereBinds(tree), tail), 3, WhereBinds(tree))
  {
    hide WhereBinds;
    var binds := WhereBinds(tree);
    var params := QueryParams(account, members, binds, tail);
    assert params[2..2 + |binds|] == ValuesOf(binds);
  }

  /** What the query keeps, in terms of the interpreter. */
  predicate AcceptedByEvaluator(host: Host, now: Instant, db: Db, account: string, tree: RuleTree, id: string) {
    id in db.users &&
    var user := db.users[id];
    Evaluate(host, now, tree, FactsOf(user, db.Relation(account, user.did)), LoadMemberships(db, account, user.did))
  }

  /** No condition of the rule is split for this viewer. */
  predicate RuleAgreesOn(host: Host, now: Instant, db: Db, account: string, tree: RuleTree, id: string)
    requires id in db.users
  {
    AllUnsplit(tree, RowEnv(host, now, db, account, id, []), account)
  }

  /** The set a rule's query returns. */
  function RuleRows(
      host: Host, now: Instant, db: Db, account: string,
      tree: RuleTree, members: seq<string>, tail: seq<V>): set<string>
  {
    var params := QueryParams(account, members, WhereBinds(tree), tail);
    SelectIds(host, now, db, account, QueryExpr(WhereExpr(tree, 2)), params)
  }

  lemma RowIsEvaluator(
      host: Host, now: Instant, db: Db, account: string, tree: RuleTree, members: seq<string>, tail: seq<V>, id: string)
    requires id in db.users && RunnableTree(host, tree) && RuleAgreesOn(host, now, db, account, tree, id)
    ensures id in RuleRows(host, now, db, account, tree, members, tail)
       <==> id in members && AcceptedByEvaluator(host, now, db, account, tree, id)
  {
    hide WhereBinds, WhereExpr, Unsplit, EvaluateSingle, Runnable;
    var env := RowEnv(host, now, db, account, id, QueryParams(account, members, WhereBinds(tree), tail));
    RuleIsBound(tree, account, members, tail);
    assert AllUnsplit(tree, env, account) by {
      var plain := RowEnv(host, now, db, account, id, []);
      forall g, c | g in tree.groups && c in g
        ensures Unsplit(c, env, account)
      {
        assert Unsplit(c, plain, account);
        AgreementIgnoresParams(c, plain, env.params, account);
      }
    }
    WhereMeaning(tree, 2, env);
    WhereIsEvaluator(tree, 2, env, account);
    QueryMeaning(WhereExpr(tree, 2), env, members);
  }

  lemma AgreementIgnoresParams(c: Condition, env: Env, params: seq<V>, account: string)
    ensures Unsplit(c, env, account) == Unsplit(c, env.(params := params), account)
  {
  }

  /**
   * End to end: the emitted text, read by the database with the values bound in order, selects
   * exactly the members the interpreter accepts.
   */
  lemma QuerySelectsWhatTheEvaluatorAccepts(
      host: Host, now: Instant, db: Db, account: string, tree: RuleTree, members: seq<string>, tail: seq<V>)
    requires RunnableTree(host, tree)
    requires forall id :: id in members && id in db.users ==> RuleAgreesOn(host, now, db, account, tree, id)
    ensures RuleRows(host, now, db, account, tree, members, tail)
         == set id | id in members && AcceptedByEvaluator(host, now, db, account, tree, id)
  {
    hide WhereBinds, WhereExpr, RuleAgreesOn, AcceptedByEvaluator;
    var rows := RuleRows(host, now, db, account, tree, members, tail);
    forall id
      ensures id in rows <==> id in members && AcceptedByEvaluator(host, now, db, account, tree, id)
    {
      if id in members && id in db.users {
        RowIsEvaluator(host, now, db, account, tree, members, tail, id);
      } else if id in db.users {
        NonMemberIsNotSelected(host, now, db, account, tree, members, tail, id);
      } else {
        AcceptedAreLinked(host, now, db, account, tree, id);
      }
    }
  }

  lemma AcceptedAreLinked(host: Host, now: Instant, db: Db, account: string, tree: RuleTree, id: string)
    ensures AcceptedByEvaluator(host, now, db, account, tree, id) ==> id in db.users
  {
  }

  lemma NonMemberIsNotSelected(
      host: Host, now: Instant, db: Db, account: string, tree: RuleTree, members: seq<string>, tail: seq<V>, id: string)
    requires RunnableTree(host, tree) && id in db.users && id !in members
    ensures id !in RuleRows(host, now, db, account, tree, members, tail)
  {
    hide WhereBinds, WhereExpr, Runnable;
    var env := RowEnv(host, now, db, account, id, QueryParams(account, members, WhereBinds(tree), tail));
    RuleIsBound(tree, account, members, tail);
    WhereMeaning(tree, 2, env);
    QueryMeaning(WhereExpr(tree, 2), env, members);
  }

  /**
   * Without ownership of lists and without strings in `not_in` lists the query can only select more:
   * unless a timestamp lies on a future boundary, every member the interpreter accepts is selected.
   */
  lemma AcceptedMembersAreSelected(
      host: Host, now: Instant, db: Db, account: string, tree: RuleTree, members: seq<string>, tail: seq<V>, id: string)
    requires RunnableTree(host, tree) && id in members && AcceptedByEvaluator(host, now, db, account, tree, id)
    requires NoFutureBoundary(tree, RowEnv(host, now, db, account, id, []))
    ensures id in RuleRows(host, now, db, account, tree, members, tail)
  {
    hide WhereBinds, WhereExpr, SplitByFuture, EvaluateSingle, Runnable;
    var env := RowEnv(host, now, db, account, id, QueryParams(account, members, WhereBinds(tree), tail));
    RuleIsBound(tree, account, members, tail);
    var plain := RowEnv(host, now, db, account, id, []);
    forall g, c | g in tree.groups && c in g
      ensures !SplitByFuture(c, env)
    {
      FutureIgnoresParams(c, plain, env.params);
    }
    WhereMeaning(tree, 2, env);
    EvaluatorImpliesWhere(tree, 2, env, account);
    QueryMeaning(WhereExpr(tree, 2), env, members);
  }

  lemma FutureIgnoresParams(c: Condition, env: Env, params: seq<V>)
    ensures SplitByFuture(c, env) == SplitByFuture(c, env.(params := params))
  {
  }
}
