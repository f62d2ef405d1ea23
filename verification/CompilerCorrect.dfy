/**
 * The compiler against the interpreter. What a compiled clause decides of a row, and exactly when that
 * is what the evaluator decides: for each condition, and for whole trees.
 */
module CompilerCorrect {
  import opened Wrappers
  import Like
  import opened Rules
  import opened Facts
  import opened ConditionEval
  import opened Sql
  import opened RuleSql
  import opened RuleSqlShape
  import RuleMeaning

  // ---------- What the theorem assumes of a rule and of a query ----------

  /** Placeholder $first and its successors carry the given values. */
  predicate Bound(params: seq<V>, first: nat, binds: seq<Bind>) {
    1 <= first && first - 1 + |binds| <= |params| && params[first - 1..first - 1 + |binds|] == ValuesOf(binds)
  }

  function ViewerFacts(env: Env): Facts {
    FactsOf(env.user, env.rel)
  }

  predicate Verdict(c: Condition, env: Env, account: string) {
    EvaluateSingle(env.host, env.now, c, ViewerFacts(env), LoadMemberships(env.db, account, env.user.did))
  }

  // ---------- When one condition is decided the same way ----------

  function Stamp(t: Target, f: Facts): Option<Instant> {
    if t.FollowAgeDays? then f.followedAt else if t.AccountAgeDays? then f.createdAt else None
  }

  /** Rounded down; the evaluator rounds toward zero instead. */
  function FloorDays(now: Instant, t: Instant): int {
    (now - t) / DAY
  }

  /** Comparing d and comparing d + 1 give different answers. */
  predicate Separates(c: Condition, d: int) {
    var n := IntOr(c.value, 0);
    match c.op
    case Eq | Neq => n == d || n == d + 1
    case Gt | Lte => n == d
    case Gte | Lt => n == d + 1
    case Between => n <= UpperBound(c) && (UpperBound(c) == d || n == d + 1)
    case _ => false
  }

  /** The timestamp is a fraction of a day in the future, at the very boundary the condition tests. */
  predicate SplitByFuture(c: Condition, env: Env) {
    var stamp := Stamp(c.target, ViewerFacts(env));
    && stamp.Some?
    && env.now < stamp.value
    && (env.now - stamp.value) % DAY != 0
    && Separates(c, FloorDays(env.now, stamp.value))
  }

  /** The viewer is on the named list or pack, but the bound account does not own it. */
  predicate SplitByOwner(c: Condition, env: Env, account: string) {
    var uri := StrOrEmpty(c.value);
    match c.target
    case IsOnList =>
      (uri, env.user.did) in env.db.listMembers && !(uri in env.db.lists && env.db.lists[uri] == account)
    case IsOnStarterPack =>
      (uri, env.user.did) in env.db.packMembers && !(uri in env.db.packs && env.db.packs[uri] == account)
    case _ => false
  }

  function TextFact(t: Target, f: Facts): Option<string> {
    match t
    case Handle => Some(f.handle)
    case HandleDomain => f.handleDomain
    case DisplayName => f.displayName
    case Description => f.description
    case PdsHost => f.pdsHost
    case _ => None
  }

  /** A `not_in` list without a single string, asked of a viewer whose column is NULL. */
  predicate SplitByEmptyList(c: Condition, env: Env) {
    c.op.NotIn? && StrArray(c) == [] && TextFact(c.target, ViewerFacts(env)).None?
  }

  predicate Unsplit(c: Condition, env: Env, account: string) {
    !SplitByFuture(c, env) && !SplitByOwner(c, env, account) && !SplitByEmptyList(c, env)
  }

  // ---------- Targets ----------

  lemma FloorOfQuotient(us: int)
    ensures ((us as real / 1_000_000.0) / 86400.0).Floor == us / DAY
  {
    var q, r := us / DAY, us % DAY;
    assert us == q * DAY + r;
    assert (us as real / 1_000_000.0) / 86400.0 == q as real + r as real / 86_400_000_000.0;
  }

  /** One step of evaluation. */
  lemma BinaryMeaning(op: BinOp, l: Expr, r: Expr, env: Env)
    ensures Eval(Binary(op, l, r), env) == BinaryV(env.host, op, Eval(l, env), Eval(r, env))
  {
  }

  lemma CallMeaning(f: Function, e: Expr, env: Env)
    ensures Eval(Call(f, e), env) == CallV(f, Eval(e, env))
  {
  }

  lemma ParenMeaning(e: Expr, env: Env)
    ensures Eval(Paren(e), env) == Eval(e, env)
  {
  }

  lemma LeafMeaning(c: Column, n: nat, env: Env)
    ensures Eval(Col(c), env) == ColumnValue(c, env)
    ensures Eval(Now, env) == VTime(env.now)
    ensures Eval(IntLit(n), env) == VNum(n as real)
  {
  }

  lemma DaysOfSpan(us: int)
    ensures FloorV(DivV(EpochV(VSpan(us)), VNum(86400.0))) == VNum((us / DAY) as real)
  {
    FloorOfQuotient(us);
  }

  lemma DaysMeaning(c: Column, env: Env, stamp: Option<Instant>)
    requires ColumnValue(c, env) == NullableTime(stamp)
    ensures Eval(WholeDaysSince(c), env)
         == if stamp.Some? then VNum(FloorDays(env.now, stamp.value) as real) else Null
  {
    hide Eval, ColumnValue;
    LeafMeaning(c, 86400, env);
    var since := Binary(MinusOp, Now, Col(c));
    BinaryMeaning(MinusOp, Now, Col(c), env);
    ParenMeaning(since, env);
    CallMeaning(Epoch, Paren(since), env);
    BinaryMeaning(DivOp, Call(Epoch, Paren(since)), IntLit(86400), env);
    CallMeaning(Floor, Binary(DivOp, Call(Epoch, Paren(since)), IntLit(86400)), env);
    if stamp.Some? {
      DaysOfSpan(env.now - stamp.value);
    }
  }

  function BoolFact(t: Target, f: Facts): bool
    requires t.Kind().BoolKind?
  {
    match t
    case IsFollower => f.isFollower
    case IsFollowedBack => f.isFollowedBack
    case IsMutual => f.IsMutual()
    case HasCustomDomain => f.hasCustomDomain
    case HasAvatar => f.hasAvatar
    case HasBanner => f.hasBanner
  }

  lemma OrFalseMeaning(c: Column, env: Env)
    ensures Eval(OrFalse(c), env) == if ColumnValue(c, env).Null? then VBool(false) else ColumnValue(c, env)
  {
    assert Eval(Col(c), env) == ColumnValue(c, env);
    assert Eval(BoolLit(false), env) == VBool(false);
  }

  lemma OrZeroMeaning(c: Column, env: Env)
    ensures Eval(OrZero(c), env) == if ColumnValue(c, env).Null? then VNum(0.0) else ColumnValue(c, env)
  {
    assert Eval(Col(c), env) == ColumnValue(c, env);
    assert Eval(IntLit(0), env) == VNum(0.0);
  }

  lemma MutualMeaning(env: Env)
    ensures Eval(TargetExpr(IsMutual).value, env) == VBool(ViewerFacts(env).IsMutual())
  {
    OrFalseMeaning(ArIsFollower, env);
    OrFalseMeaning(ArIsFollowedBack, env);
    var both := Binary(AndOp, OrFalse(ArIsFollower), OrFalse(ArIsFollowedBack));
    assert Eval(both, env) == AndV(Eval(OrFalse(ArIsFollower), env), Eval(OrFalse(ArIsFollowedBack), env));
    assert Eval(Paren(both), env) == Eval(both, env);
  }

  lemma BoolTargetMeaning(t: Target, env: Env)
    requires t.Kind().BoolKind?
    ensures Eval(TargetExpr(t).value, env) == VBool(BoolFact(t, ViewerFacts(env)))
  {
    match t
    case IsMutual => MutualMeaning(env);
    case IsFollower => OrFalseMeaning(ArIsFollower, env);
    case IsFollowedBack => OrFalseMeaning(ArIsFollowedBack, env);
    case HasCustomDomain => OrFalseMeaning(BuHasCustomDomain, env);
    case HasAvatar => OrFalseMeaning(BuHasAvatar, env);
    case HasBanner => OrFalseMeaning(BuHasBanner, env);
  }

  /** An integer fact, day counts rounded down as the database rounds them. */
  function IntFact(t: Target, now: Instant, f: Facts): Option<int>
    requires t.Kind().IntKind?
  {
    match t
    case FollowAgeDays | AccountAgeDays =>
      var stamp := Stamp(t, f);
      if stamp.Some? then Some(FloorDays(now, stamp.value)) else None
    case LikedPostsCount => Some(f.likedPosts)
    case RepostedPostsCount => Some(f.repostedPosts)
    case RepliedPostsCount => Some(f.repliedPosts)
    case PostsCount => Some(f.postsCount)
    case FollowersCount => Some(f.followersCount)
    case FollowsCount => Some(f.followsCount)
  }

  function IntValue(a: Option<int>): V {
    if a.Some? then VNum(a.value as real) else Null
  }

  lemma IntTargetMeaning(t: Target, env: Env)
    requires t.Kind().IntKind?
    ensures Eval(TargetExpr(t).value, env) == IntValue(IntFact(t, env.now, ViewerFacts(env)))
  {
    var f := ViewerFacts(env);
    match t
    case FollowAgeDays => DaysMeaning(ArFollowedAt, env, f.followedAt);
    case AccountAgeDays => DaysMeaning(BuCreatedAt, env, f.createdAt);
    case LikedPostsCount => OrZeroMeaning(ArLikedPosts, env);
    case RepostedPostsCount => OrZeroMeaning(ArRepostedPosts, env);
    case RepliedPostsCount => OrZeroMeaning(ArRepliedPosts, env);
    case _ =>
  }

  lemma TextTargetMeaning(t: Target, env: Env)
    requires t.Kind().StringKind? && !t.IsMembership()
    ensures Eval(TargetExpr(t).value, env) == Nullable(TextFact(t, ViewerFacts(env)))
  {
  }

  // ---------- Operators ----------

  lemma ParamMeaning(i: nat, env: Env, binds: seq<Bind>, k: nat)
    requires Bound(env.params, i, binds) && k < |binds|
    ensures Eval(Param(i + k), env) == binds[k].Value()
  {
    assert env.params[i - 1..i - 1 + |binds|][k] == ValuesOf(binds)[k];
  }

  lemma BoolOperators(c: Condition, e: Expr, i: nat, env: Env, actual: bool)
    requires WellFormed(c) && c.target.Kind().BoolKind?
    requires Bound(env.params, i, ComparisonBinds(c)) && Eval(e, env) == VBool(actual)
    ensures Eval(ComparisonExpr(c, e, i), env) == VBool(BoolMatch(c, actual))
  {
    ParamMeaning(i, env, ComparisonBinds(c), 0);
  }

  lemma BoundMeaning(cmp: Comparison, e: Expr, i: nat, env: Env)
    ensures Eval(Binary(Cmp(cmp), Paren(e), Param(i)), env) == CompareV(cmp, Eval(e, env), Eval(Param(i), env))
  {
    assert Eval(Paren(e), env) == Eval(e, env);
  }

  lemma RangeMeaning(e: Expr, i: nat, env: Env)
    ensures Eval(Paren(Binary(AndOp,
              Binary(Cmp(CmpGe), Paren(e), Param(i)),
              Binary(Cmp(CmpLe), Paren(e), Param(i + 1)))), env)
         == AndV(CompareV(CmpGe, Eval(e, env), Eval(Param(i), env)),
                 CompareV(CmpLe, Eval(e, env), Eval(Param(i + 1), env)))
  {
    BoundMeaning(CmpGe, e, i, env);
    BoundMeaning(CmpLe, e, i + 1, env);
    var l, r := Binary(Cmp(CmpGe), Paren(e), Param(i)), Binary(Cmp(CmpLe), Paren(e), Param(i + 1));
    assert Eval(Binary(AndOp, l, r), env) == AndV(Eval(l, env), Eval(r, env));
  }

  lemma BetweenOperator(c: Condition, e: Expr, i: nat, env: Env, actual: Option<int>)
    requires WellFormed(c) && c.target.Kind().IntKind? && c.op.Between?
    requires Bound(env.params, i, ComparisonBinds(c)) && Eval(e, env) == IntValue(actual)
    ensures Eval(ComparisonExpr(c, e, i), env) == if actual.Some? then VBool(IntMatch(c, actual)) else Null
  {
    ParamMeaning(i, env, ComparisonBinds(c), 0);
    ParamMeaning(i, env, ComparisonBinds(c), 1);
    RangeMeaning(e, i, env);
  }

  lemma OrderingOperator(c: Condition, e: Expr, i: nat, env: Env, actual: Option<int>)
    requires WellFormed(c) && c.target.Kind().IntKind? && IsOrdering(c.op)
    requires Bound(env.params, i, ComparisonBinds(c)) && Eval(e, env) == IntValue(actual)
    ensures Eval(ComparisonExpr(c, e, i), env) == if actual.Some? then VBool(IntMatch(c, actual)) else Null
  {
    ParamMeaning(i, env, ComparisonBinds(c), 0);
    BoundMeaning(OrderingOp(c.op), e, i, env);
  }

  lemma EqualityOperator(c: Condition, e: Expr, i: nat, env: Env, actual: Option<int>)
    requires WellFormed(c) && c.target.Kind().IntKind? && (c.op.Eq? || c.op.Neq?)
    requires Bound(env.params, i, ComparisonBinds(c)) && Eval(e, env) == IntValue(actual)
    ensures Eval(ComparisonExpr(c, e, i), env) == if actual.Some? then VBool(IntMatch(c, actual)) else Null
  {
    hide Eval;
    ParamMeaning(i, env, ComparisonBinds(c), 0);
    BinaryMeaning(Cmp(if c.op.Eq? then CmpEq else CmpNe), e, Param(i), env);
  }

  lemma IntOperators(c: Condition, e: Expr, i: nat, env: Env, actual: Option<int>)
    requires WellFormed(c) && c.target.Kind().IntKind?
    requires Bound(env.params, i, ComparisonBinds(c)) && Eval(e, env) == IntValue(actual)
    ensures Eval(ComparisonExpr(c, e, i), env) == if actual.Some? then VBool(IntMatch(c, actual)) else Null
  {
    hide Eval, ComparisonExpr, ComparisonBinds, IntMatch, Bound;
    if c.op.Between? {
      BetweenOperator(c, e, i, env, actual);
    } else if IsOrdering(c.op) {
      OrderingOperator(c, e, i, env, actual);
    } else {
      EqualityOperator(c, e, i, env, actual);
    }
  }

  lemma {:induction false} AnyOf(a: string, elems: seq<string>)
    ensures QuantifiedTexts(CmpEq, false, VText(a), elems) == VBool(a in elems)
    ensures QuantifiedTexts(CmpNe, true, VText(a), elems) == VBool(a !in elems)
    ensures elems != [] ==> QuantifiedTexts(CmpEq, false, Null, elems) == Null
    ensures elems != [] ==> QuantifiedTexts(CmpNe, true, Null, elems) == Null
  {
    if elems != [] {
      AnyOf(a, elems[1..]);
      assert elems == [elems[0]] + elems[1..];
      if elems[1..] == [] {
        assert QuantifiedTexts(CmpEq, false, Null, elems[1..]) == VBool(false);
        assert QuantifiedTexts(CmpNe, true, Null, elems[1..]) == VBool(true);
      }
    }
  }

  lemma QuantifiedMeaning(cmp: Comparison, all: bool, e: Expr, i: nat, env: Env, elems: seq<string>)
    requires Eval(Param(i), env) == VTexts(elems)
    ensures Eval(Quantified(cmp, all, e, CastTextArray(Param(i))), env)
         == QuantifiedTexts(cmp, all, Eval(e, env), elems)
  {
    assert Eval(CastTextArray(Param(i)), env) == VTexts(elems);
  }

  lemma GuardedMeaning(e: Expr, r: Expr, env: Env)
    requires !Eval(e, env).Fault?
    ensures Eval(Paren(Binary(AndOp, IsNotNull(e), r)), env) == AndV(VBool(!Eval(e, env).Null?), Eval(r, env))
  {
    assert Eval(IsNotNull(e), env) == VBool(!Eval(e, env).Null?);
    assert Eval(Binary(AndOp, IsNotNull(e), r), env) == AndV(Eval(IsNotNull(e), env), Eval(r, env));
  }

  predicate IsTextCondition(host: Host, c: Condition) {
    Runnable(host, c) && c.target.Kind().StringKind? && !c.target.IsMembership()
  }

  lemma ContainsOperator(c: Condition, e: Expr, i: nat, env: Env, actual: Option<string>)
    requires IsTextCondition(env.host, c) && c.op.Contains?
    requires Bound(env.params, i, ComparisonBinds(c)) && Eval(e, env) == Nullable(actual)
    ensures Eval(ComparisonExpr(c, e, i), env) == if actual.Some? then VBool(StringMatch(env.host, c, actual)) else Null
  {
    hide Eval;
    ParamMeaning(i, env, ComparisonBinds(c), 0);
    CallMeaning(Lower, e, env);
    CallMeaning(Lower, Param(i), env);
    BinaryMeaning(LikeOp, Call(Lower, e), Call(Lower, Param(i)), env);
    Like.ContainsPatternIsExact(if actual.Some? then actual.value else "", c.value.s);
  }

  lemma InOperator(c: Condition, e: Expr, i: nat, env: Env, actual: Option<string>)
    requires IsTextCondition(env.host, c) && c.op.In?
    requires Bound(env.params, i, ComparisonBinds(c)) && Eval(e, env) == Nullable(actual)
    ensures Eval(ComparisonExpr(c, e, i), env)
         == if actual.Some? then VBool(StringMatch(env.host, c, actual))
            else if StrArray(c) == [] then VBool(false) else Null
  {
    if StrArray(c) != [] {
      ParamMeaning(i, env, ComparisonBinds(c), 0);
      AnyOf(if actual.Some? then actual.value else "", StrArray(c));
      QuantifiedMeaning(CmpEq, false, e, i, env, StrArray(c));
    }
  }

  lemma NotInOperator(c: Condition, e: Expr, i: nat, env: Env, actual: Option<string>)
    requires IsTextCondition(env.host, c) && c.op.NotIn?
    requires Bound(env.params, i, ComparisonBinds(c)) && Eval(e, env) == Nullable(actual)
    ensures Eval(ComparisonExpr(c, e, i), env)
         == if actual.Some? then VBool(StringMatch(env.host, c, actual)) else VBool(StrArray(c) == [])
  {
    if StrArray(c) != [] {
      ParamMeaning(i, env, ComparisonBinds(c), 0);
      AnyOf(if actual.Some? then actual.value else "", StrArray(c));
      QuantifiedMeaning(CmpNe, true, e, i, env, StrArray(c));
      GuardedMeaning(e, Quantified(CmpNe, true, e, CastTextArray(Param(i))), env);
    }
  }

  lemma ScalarOperator(c: Condition, e: Expr, i: nat, env: Env, actual: Option<string>)
    requires IsTextCondition(env.host, c) && (c.op.Eq? || c.op.Neq? || c.op.Regex?)
    requires Bound(env.params, i, ComparisonBinds(c)) && Eval(e, env) == Nullable(actual)
    ensures Eval(ComparisonExpr(c, e, i), env)
         == if actual.Some? then VBool(StringMatch(env.host, c, actual))
            else if c.op.Neq? then VBool(true) else Null
  {
    hide Eval;
    ParamMeaning(i, env, ComparisonBinds(c), 0);
    BinaryMeaning(Cmp(CmpEq), e, Param(i), env);
    BinaryMeaning(DistinctOp, e, Param(i), env);
    BinaryMeaning(MatchOp, e, Param(i), env);
  }

  /**
   * On a present text every operator means what the evaluator means by it. On NULL only `neq` holds,
   * and a `not_in` whose list has no string.
   */
  lemma TextOperators(c: Condition, e: Expr, i: nat, env: Env, actual: Option<string>)
    requires IsTextCondition(env.host, c)
    requires Bound(env.params, i, ComparisonBinds(c)) && Eval(e, env) == Nullable(actual)
    ensures var v := Eval(ComparisonExpr(c, e, i), env);
            if actual.Some? then v == VBool(StringMatch(env.host, c, actual))
            else IsTri(v) && (v == VBool(true) <==> c.op.Neq? || (c.op.NotIn? && StrArray(c) == []))
  {
    hide ComparisonExpr, ComparisonBinds, StringMatch;
    match c.op
    case Contains => ContainsOperator(c, e, i, env, actual);
    case In => InOperator(c, e, i, env, actual);
    case NotIn => NotInOperator(c, e, i, env, actual);
    case _ => ScalarOperator(c, e, i, env, actual);
  }

  lemma ParamIgnoresRow(i: nat, env: Env, row: (Table, string, string))
    ensures Eval(Param(i), env.(m := Some(row))) == Eval(Param(i), env)
  {
  }

  lemma MembershipRow(table: Table, row: (string, string), i: nat, env: Env, uri: string)
    requires Eval(Param(i), env) == VText(uri)
    ensures var l := Binary(Cmp(CmpEq), Col(if table.ListMembers? then MListUri else MPackUri), Param(i));
            var r := Binary(Cmp(CmpEq), Col(MMemberDid), Col(BuDid));
            Eval(Binary(AndOp, l, r), env.(m := Some((table, row.0, row.1)))) == VBool(row == (uri, env.user.did))
  {
    var l := Binary(Cmp(CmpEq), Col(if table.ListMembers? then MListUri else MPackUri), Param(i));
    var r := Binary(Cmp(CmpEq), Col(MMemberDid), Col(BuDid));
    var inner := env.(m := Some((table, row.0, row.1)));
    ParamIgnoresRow(i, env, (table, row.0, row.1));
    hide Eval;
    LeafMeaning(if table.ListMembers? then MListUri else MPackUri, 0, inner);
    LeafMeaning(MMemberDid, 0, inner);
    LeafMeaning(BuDid, 0, inner);
    BinaryMeaning(Cmp(CmpEq), Col(if table.ListMembers? then MListUri else MPackUri), Param(i), inner);
    BinaryMeaning(Cmp(CmpEq), Col(MMemberDid), Col(BuDid), inner);
    BinaryMeaning(AndOp, l, r, inner);
  }

  lemma MembershipMeaning(t: Target, i: nat, env: Env, uri: string)
    requires t.IsMembership() && Eval(Param(i), env) == VText(uri)
    ensures Eval(MembershipExpr(t, i), env)
         == VBool((uri, env.user.did) in (if t.IsOnList? then env.db.listMembers else env.db.packMembers))
  {
    var table := if t.IsOnList? then ListMembers else StarterPackMembers;
    forall row | row in RowsOf(table, env.db) {
      MembershipRow(table, row, i, env, uri);
    }
  }

  // ---------- One condition ----------

  lemma DaysDiffer(now: Instant, t: Instant)
    ensures var truncated := DaysSince(now, Some(t)).value;
            truncated == FloorDays(now, t) + (if now < t && (now - t) % DAY != 0 then 1 else 0)
  {
  }

  /** The evaluator's integer operators tell d and d + 1 apart exactly when the test is between them. */
  lemma SeparatesIsExact(c: Condition, d: int)
    requires WellFormed(c) && c.target.Kind().IntKind?
    ensures IntMatch(c, Some(d)) != IntMatch(c, Some(d + 1)) <==> Separates(c, d)
  {
  }

  // ---------- What the database decides ----------

  function MembersOf(t: Target, db: Db): set<(string, string)>
    requires t.IsMembership()
  {
    if t.IsOnList? then db.listMembers else db.packMembers
  }

  /**
   * What the clause decides of a row: day counts are rounded down, a membership counts whoever owns the
   * list, and a missing text passes `neq` and a `not_in` without strings.
   */
  predicate Selects(c: Condition, env: Env) {
    var f := ViewerFacts(env);
    match c.target.Kind()
    case BoolKind => BoolMatch(c, BoolFact(c.target, f))
    case IntKind => IntMatch(c, IntFact(c.target, env.now, f))
    case StringKind =>
      if c.target.IsMembership() then (StrOrEmpty(c.value), env.user.did) in MembersOf(c.target, env.db)
      else
        var actual := TextFact(c.target, f);
        if actual.Some? then StringMatch(env.host, c, actual)
        else c.op.Neq? || (c.op.NotIn? && StrArray(c) == [])
  }

  lemma IntCondition(c: Condition, i: nat, env: Env)
    requires WellFormed(c) && c.target.Kind().IntKind? && Bound(env.params, i, ConditionBinds(c))
    ensures IsTri(Eval(ConditionExpr(c, i), env))
    ensures Holds(ConditionExpr(c, i), env) <==> Selects(c, env)
  {
    var actual := IntFact(c.target, env.now, ViewerFacts(env));
    IntTargetMeaning(c.target, env);
    IntOperators(c, TargetExpr(c.target).value, i, env, actual);
  }

  lemma TextCondition(c: Condition, i: nat, env: Env)
    requires Runnable(env.host, c) && c.target.Kind().StringKind? && !c.target.IsMembership()
    requires Bound(env.params, i, ConditionBinds(c))
    ensures IsTri(Eval(ConditionExpr(c, i), env))
    ensures Holds(ConditionExpr(c, i), env) <==> Selects(c, env)
  {
    TextTargetMeaning(c.target, env);
    TextOperators(c, TargetExpr(c.target).value, i, env, TextFact(c.target, ViewerFacts(env)));
  }

  lemma MembershipCondition(c: Condition, i: nat, env: Env)
    requires WellFormed(c) && c.target.IsMembership() && Bound(env.params, i, ConditionBinds(c))
    ensures IsTri(Eval(ConditionExpr(c, i), env))
    ensures Holds(ConditionExpr(c, i), env) <==> Selects(c, env)
  {
    ParamMeaning(i, env, ConditionBinds(c), 0);
    MembershipMeaning(c.target, i, env, c.value.s);
  }

  /** One condition, every row: the clause is TRUE, FALSE or NULL (never an error), and TRUE as `Selects` says. */
  lemma ConditionMeaning(c: Condition, i: nat, env: Env)
    requires Runnable(env.host, c) && Bound(env.params, i, ConditionBinds(c))
    ensures IsTri(Eval(ConditionExpr(c, i), env))
    ensures Holds(ConditionExpr(c, i), env) <==> Selects(c, env)
  {
    match c.target.Kind()
    case BoolKind =>
      BoolTargetMeaning(c.target, env);
      BoolOperators(c, TargetExpr(c.target).value, i, env, BoolFact(c.target, ViewerFacts(env)));
    case IntKind =>
      IntCondition(c, i, env);
    case StringKind =>
      if c.target.IsMembership() {
        MembershipCondition(c, i, env);
      } else {
        TextCondition(c, i, env);
      }
  }

  // ---------- Against the evaluator ----------

  /** Each kind of target has its own split; the last two only widen the clause. */
  lemma SplitsAreExact(c: Condition, env: Env, account: string)
    requires Runnable(env.host, c)
    ensures Selects(c, env) == Verdict(c, env, account) <==> Unsplit(c, env, account)
    ensures !SplitByFuture(c, env) && Verdict(c, env, account) ==> Selects(c, env)
  {
    var f := ViewerFacts(env);
    match c.target.Kind()
    case BoolKind =>
    case IntKind =>
      var stamp := Stamp(c.target, f);
      if stamp.Some? {
        DaysDiffer(env.now, stamp.value);
        SeparatesIsExact(c, FloorDays(env.now, stamp.value));
      }
    case StringKind =>
      if c.target.IsMembership() {
        RuleMeaning.MembershipsAreOwned(env.db, account, env.user.did, c.value.s);
      } else {
        assert Verdict(c, env, account) == StringMatch(env.host, c, TextFact(c.target, f));
      }
  }

  /**
   * One condition, every row: the clause is never an error, and it is TRUE for the same viewers as the
   * evaluator exactly when none of the three splits applies.
   */
  lemma ConditionAgreesIff(c: Condition, i: nat, env: Env, account: string)
    requires Runnable(env.host, c) && Bound(env.params, i, ConditionBinds(c))
    ensures IsTri(Eval(ConditionExpr(c, i), env))
    ensures Holds(ConditionExpr(c, i), env) == Verdict(c, env, account) <==> Unsplit(c, env, account)
    ensures !SplitByFuture(c, env) && Verdict(c, env, account) ==> Holds(ConditionExpr(c, i), env)
  {
    hide ConditionExpr, ConditionBinds, Runnable, Verdict, Unsplit, Selects, SplitByFuture, Eval;
    ConditionMeaning(c, i, env);
    SplitsAreExact(c, env, account);
  }

  // ---------- A whole tree ----------

  lemma BoundParts(params: seq<V>, first: nat, left: seq<Bind>, right: seq<Bind>)
    requires Bound(params, first, left + right)
    ensures Bound(params, first, left)
    ensures Bound(params, first + |left|, right)
  {
    var used := first - 1;
    var all := params[used..used + |left + right|];
    assert params[used..used + |left|] == all[..|left|] == ValuesOf(left);
    assert params[used + |left|..used + |left| + |right|] == all[|left|..] == ValuesOf(right);
  }

  lemma ChainGrows(op: BinOp, es: seq<Expr>, e: Expr, env: Env)
    requires es != []
    ensures Eval(Chain(op, es + [e]), env) == BinaryV(env.host, op, Eval(Chain(op, es), env), Eval(e, env))
  {
    assert (es + [e])[..|es|] == es;
  }

  lemma ChainOfOne(op: BinOp, e: Expr)
    ensures Chain(op, [e]) == e
  {
  }

  lemma {:induction false} AndChainMeaning(g: Group, used: nat, env: Env)
    requires g != [] && Bound(env.params, used + 1, BindsOf(g))
    requires forall c :: c in g ==> Runnable(env.host, c)
    ensures var v := Eval(Chain(AndOp, ExprsOf(g, used)), env);
            IsTri(v) && (v == VBool(true) <==> forall c :: c in g ==> Selects(c, env))
  {
    hide ConditionExpr, ConditionBinds, Selects, Runnable, Chain, Eval, Bound;
    var before, last := g[..|g| - 1], g[|g| - 1];
    assert g == before + [last];
    BoundParts(env.params, used + 1, BindsOf(before), ConditionBinds(last));
    var e := ConditionExpr(last, used + |BindsOf(before)| + 1);
    ConditionMeaning(last, used + |BindsOf(before)| + 1, env);
    assert ExprsOf(g, used) == ExprsOf(before, used) + [e];
    if before == [] {
      ChainOfOne(AndOp, e);
      assert ExprsOf(before, used) + [e] == [e];
    } else {
      AndChainMeaning(before, used, env);
      ChainGrows(AndOp, ExprsOf(before, used), e, env);
    }
  }

  predicate SelectsGroup(g: Group, env: Env) {
    g != [] && forall c :: c in g ==> Selects(c, env)
  }

  lemma GroupMeaning(g: Group, used: nat, env: Env)
    requires Bound(env.params, used + 1, BindsOf(g))
    requires forall c :: c in g ==> Runnable(env.host, c)
    ensures var v := Eval(GroupExpr(g, used), env);
            IsTri(v) && (v == VBool(true) <==> SelectsGroup(g, env))
  {
    hide BindsOf, Selects, Runnable, ExprsOf;
    if g != [] {
      AndChainMeaning(g, used, env);
    }
  }

  lemma {:induction false} OrChainMeaning(groups: seq<Group>, used: nat, env: Env)
    requires groups != [] && Bound(env.params, used + 1, TreeBinds(groups))
    requires forall g, c :: g in groups && c in g ==> Runnable(env.host, c)
    ensures var v := Eval(Chain(OrOp, GroupExprs(groups, used)), env);
            IsTri(v) && (v == VBool(true) <==> exists g :: g in groups && SelectsGroup(g, env))
  {
    hide GroupExpr, BindsOf, SelectsGroup, Runnable, Chain, Eval, Bound;
    var before, last := groups[..|groups| - 1], groups[|groups| - 1];
    assert groups == before + [last];
    BoundParts(env.params, used + 1, TreeBinds(before), BindsOf(last));
    var e := GroupExpr(last, used + |TreeBinds(before)|);
    GroupMeaning(last, used + |TreeBinds(before)|, env);
    assert GroupExprs(groups, used) == GroupExprs(before, used) + [e];
    if before == [] {
      ChainOfOne(OrOp, e);
      assert GroupExprs(before, used) + [e] == [e];
    } else {
      OrChainMeaning(before, used, env);
      ChainGrows(OrOp, GroupExprs(before, used), e, env);
    }
  }

  /** The compiled clause, exactly: never an error, and TRUE when some group's conditions all select the row. */
  lemma WhereMeaning(tree: RuleTree, offset: nat, env: Env)
    requires RunnableTree(env.host, tree) && Bound(env.params, offset + 1, WhereBinds(tree))
    ensures IsTri(Eval(WhereExpr(tree, offset), env))
    ensures Holds(WhereExpr(tree, offset), env)
       <==> tree.grantOnAnyRelation || exists g :: g in tree.groups && SelectsGroup(g, env)
  {
    hide GroupExprs, SelectsGroup, Runnable, Eval, Chain, Bound, TreeBinds;
    LeafTruth(env);
    if !tree.grantOnAnyRelation && tree.groups != [] {
      OrChainMeaning(tree.groups, offset, env);
      ParenMeaning(Chain(OrOp, GroupExprs(tree.groups, offset)), env);
    }
  }

  lemma LeafTruth(env: Env)
    ensures forall b :: Eval(BoolLit(b), env) == VBool(b)
  {
  }

  predicate EvaluatorAccepts(tree: RuleTree, env: Env, account: string) {
    Evaluate(env.host, env.now, tree, ViewerFacts(env), LoadMemberships(env.db, account, env.user.did))
  }

  predicate AllUnsplit(tree: RuleTree, env: Env, account: string) {
    forall g, c :: g in tree.groups && c in g ==> Unsplit(c, env, account)
  }

  predicate NoFutureBoundary(tree: RuleTree, env: Env) {
    forall g, c :: g in tree.groups && c in g ==> !SplitByFuture(c, env)
  }

  /** The conditions of the group that the evaluator refuses are exactly the split ones. */
  predicate RefusedAreSplit(g: Group, env: Env, account: string) {
    g != [] && forall c :: c in g ==> (!Verdict(c, env, account) <==> !Unsplit(c, env, account))
  }

  /** The evaluator refuses a condition of the group that is not split. */
  predicate RefusedOutright(g: Group, env: Env, account: string) {
    g == [] || exists c :: c in g && !Verdict(c, env, account) && Unsplit(c, env, account)
  }

  lemma SelectsGroupIff(g: Group, env: Env, account: string)
    requires forall c :: c in g ==> Runnable(env.host, c)
    ensures SelectsGroup(g, env) <==> RefusedAreSplit(g, env, account)
    ensures (forall c :: c in g ==> !SplitByFuture(c, env)) ==>
              (SelectsGroup(g, env) <==> !RefusedOutright(g, env, account))
  {
    hide Selects, Verdict, Unsplit, SplitByFuture, Runnable;
    forall c | c in g {
      SplitsAreExact(c, env, account);
    }
  }

  lemma AcceptsIff(tree: RuleTree, env: Env, account: string)
    ensures EvaluatorAccepts(tree, env, account)
       <==> tree.grantOnAnyRelation
            || exists g :: g in tree.groups && g != [] && forall c :: c in g ==> Verdict(c, env, account)
  {
    hide EvaluateSingle;
    var m := LoadMemberships(env.db, account, env.user.did);
    if exists g :: g in tree.groups && g != [] && forall c :: c in g ==> Verdict(c, env, account) {
      var g :| g in tree.groups && g != [] && forall c :: c in g ==> Verdict(c, env, account);
      assert EvaluateGroup(env.host, env.now, g, ViewerFacts(env), m);
    }
  }

  /**
   * A whole rule, exactly. The clause is TRUE if and only if some group's refused conditions are exactly
   * its split ones. So clause and evaluator agree if and only if that is so precisely when the evaluator
   * accepts; and, with no timestamp on a future boundary, if and only if the evaluator accepts or
   * refuses a condition outright in every group.
   */
  lemma WhereAgreesIff(tree: RuleTree, offset: nat, env: Env, account: string)
    requires RunnableTree(env.host, tree) && Bound(env.params, offset + 1, WhereBinds(tree))
    ensures Holds(WhereExpr(tree, offset), env)
       <==> tree.grantOnAnyRelation || exists g :: g in tree.groups && RefusedAreSplit(g, env, account)
    ensures NoFutureBoundary(tree, env) ==>
              ((Holds(WhereExpr(tree, offset), env) <==> EvaluatorAccepts(tree, env, account))
               <==> EvaluatorAccepts(tree, env, account)
                    || forall g :: g in tree.groups ==> RefusedOutright(g, env, account))
  {
    hide Runnable, WhereExpr, WhereBinds, SelectsGroup, RefusedAreSplit, RefusedOutright;
    hide SplitByFuture, EvaluatorAccepts;
    WhereMeaning(tree, offset, env);
    AcceptsIff(tree, env, account);
    forall g | g in tree.groups {
      SelectsGroupIff(g, env, account);
    }
    if NoFutureBoundary(tree, env) {
      EvaluatorImpliesWhere(tree, offset, env, account);
    }
  }

  /** The two ways of deciding a rule agree on every viewer no condition of the rule splits. */
  lemma WhereIsEvaluator(tree: RuleTree, offset: nat, env: Env, account: string)
    requires RunnableTree(env.host, tree) && Bound(env.params, offset + 1, WhereBinds(tree))
    requires AllUnsplit(tree, env, account)
    ensures Holds(WhereExpr(tree, offset), env) <==> EvaluatorAccepts(tree, env, account)
  {
    hide Runnable, Verdict, Unsplit, Selects, WhereExpr, WhereBinds, EvaluatorAccepts, RefusedOutright;
    WhereMeaning(tree, offset, env);
    AcceptsIff(tree, env, account);
    forall g | g in tree.groups
      ensures SelectsGroup(g, env) <==> g != [] && forall c :: c in g ==> Verdict(c, env, account)
    {
      SelectsGroupIff(g, env, account);
      assert forall c :: c in g ==> Unsplit(c, env, account);
    }
  }

  /**
   * Unowned lists and empty `not_in` lists only widen the clause: with no timestamp on a future
   * boundary, whoever the evaluator accepts the clause selects.
   */
  lemma EvaluatorImpliesWhere(tree: RuleTree, offset: nat, env: Env, account: string)
    requires RunnableTree(env.host, tree) && Bound(env.params, offset + 1, WhereBinds(tree))
    requires NoFutureBoundary(tree, env)
    ensures EvaluatorAccepts(tree, env, account) ==> Holds(WhereExpr(tree, offset), env)
  {
    hide Runnable, Verdict, Unsplit, Selects, SplitByFuture, WhereExpr, WhereBinds, EvaluatorAccepts;
    WhereMeaning(tree, offset, env);
    AcceptsIff(tree, env, account);
    if EvaluatorAccepts(tree, env, account) && !tree.grantOnAnyRelation {
      var g :| g in tree.groups && g != [] && forall c :: c in g ==> Verdict(c, env, account);
      forall c | c in g
        ensures Selects(c, env)
      {
        SplitsAreExact(c, env, account);
      }
      assert SelectsGroup(g, env);
    }
  }
}
