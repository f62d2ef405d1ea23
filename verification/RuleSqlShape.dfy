/**
 * What holds of every compiled clause, whatever the tree: its text reads back as the OR of the
 * groups' ANDs, and its placeholders are the bound values, each once and in order.
 */
module RuleSqlShape {
  import opened Wrappers
  import opened Rules
  import opened Sql
  import opened SqlText
  import opened RuleSql

  // ---------- Reading back ----------

  lemma DefaultedFits(c: Column)
    ensures Fits(OrFalse(c)) && ParamsOf(OrFalse(c)) == []
    ensures Fits(OrZero(c)) && ParamsOf(OrZero(c)) == []
  {
    assert ParamsOf(Col(c)) + ParamsOf(BoolLit(false)) == [];
  }

  lemma MutualFits()
    ensures var e := TargetExpr(IsMutual).value; Fits(e) && Level(e) == 9 && ParamsOf(e) == []
  {
    DefaultedFits(ArIsFollower);
    DefaultedFits(ArIsFollowedBack);
    assert Fits(Binary(AndOp, OrFalse(ArIsFollower), OrFalse(ArIsFollowedBack)));
  }

  lemma TargetFits(t: Target)
    requires !t.IsMembership()
    ensures var e := TargetExpr(t).value; Fits(e) && Level(e) == 9 && ParamsOf(e) == []
  {
    match t
    case FollowAgeDays => TermFits(ArFollowedAt);
    case AccountAgeDays => TermFits(BuCreatedAt);
    case IsMutual => MutualFits();
    case _ =>
  }

  lemma TermFits(c: Column)
    ensures Fits(WholeDaysSince(c)) && ParamsOf(WholeDaysSince(c)) == []
  {
    var span := Binary(MinusOp, Now, Col(c));
    assert Fits(span) && ParamsOf(span) == ParamsOf(Now) + ParamsOf(Col(c)) == [];
    var age := Paren(span);
    assert Fits(age) && ParamsOf(age) == [];
    assert Fits(Call(Epoch, age)) && ParamsOf(Call(Epoch, age)) == [];
    var quotient := Binary(DivOp, Call(Epoch, age), IntLit(86400));
    assert Fits(quotient) && ParamsOf(quotient) == [];
  }

  lemma BoundFits(cmp: Comparison, l: Expr, r: Expr)
    requires Fits(l) && Level(l) == 9 && Fits(r) && Level(r) == 9
    ensures Fits(Binary(Cmp(cmp), l, r)) && Level(Binary(Cmp(cmp), l, r)) == 3
  {
  }

  lemma RangeFits(l: Expr, r: Expr)
    requires Fits(l) && Fits(r) && Level(l) > 1 && Level(r) > 1
    ensures Fits(Paren(Binary(AndOp, l, r))) && Level(Paren(Binary(AndOp, l, r))) == 9
  {
    assert Fits(Binary(AndOp, l, r));
  }

  lemma QuantifiedFits(cmp: Comparison, all: bool, e: Expr, i: nat)
    requires Fits(e) && Level(e) == 9
    ensures var x := Quantified(cmp, all, e, CastTextArray(Param(i))); Fits(x) && Level(x) == 3
    ensures Fits(IsNotNull(e)) && Level(IsNotNull(e)) > 1
  {
    assert Fits(Param(i)) && Level(Param(i)) == 9;
    assert Fits(CastTextArray(Param(i)));
  }

  lemma InfixFits(op: BinOp, l: Expr, r: Expr)
    requires Fits(l) && Level(l) == 9 && Fits(r) && Level(r) == 9 && OpLevel(op) > 1
    ensures Fits(Binary(op, l, r)) && Level(Binary(op, l, r)) > 1
  {
  }

  lemma WrappedFits(e: Expr)
    requires Fits(e)
    ensures Fits(Paren(e)) && Level(Paren(e)) == 9
    ensures Fits(Call(Lower, e)) && Level(Call(Lower, e)) == 9
  {
  }

  lemma LeafFits(i: nat, b: bool)
    ensures Fits(Param(i)) && Level(Param(i)) == 9 && Fits(BoolLit(b)) && Level(BoolLit(b)) == 9
  {
  }

  lemma ComparisonFits(c: Condition, e: Expr, i: nat)
    requires Fits(e) && Level(e) == 9
    ensures var x := ComparisonExpr(c, e, i); Fits(x) && Level(x) > 1
  {
    hide Fits, Level;
    WrappedFits(e);
    LeafFits(i, c.op.NotIn?);
    WrappedFits(Param(i));
    match c.op
    case Eq => InfixFits(Cmp(CmpEq), e, Param(i));
    case Neq =>
      InfixFits(Cmp(CmpNe), e, Param(i));
      InfixFits(DistinctOp, e, Param(i));
    case Gt | Gte | Lt | Lte => InfixFits(Cmp(OrderingOp(c.op)), Paren(e), Param(i));
    case Between =>
      LeafFits(i + 1, true);
      BoundFits(CmpGe, Paren(e), Param(i));
      BoundFits(CmpLe, Paren(e), Param(i + 1));
      RangeFits(Binary(Cmp(CmpGe), Paren(e), Param(i)), Binary(Cmp(CmpLe), Paren(e), Param(i + 1)));
    case Contains => InfixFits(LikeOp, Call(Lower, e), Call(Lower, Param(i)));
    case Regex => InfixFits(MatchOp, e, Param(i));
    case In => QuantifiedFits(CmpEq, false, e, i);
    case NotIn =>
      QuantifiedFits(CmpNe, true, e, i);
      RangeFits(IsNotNull(e), Quantified(CmpNe, true, e, CastTextArray(Param(i))));
  }

  lemma ConditionFits(c: Condition, i: nat)
    ensures var x := ConditionExpr(c, i); Fits(x) && Level(x) > 1
  {
    if !c.target.IsMembership() {
      TargetFits(c.target);
      ComparisonFits(c, TargetExpr(c.target).value, i);
    } else {
      BoundFits(CmpEq, Col(if c.target.IsOnList? then MListUri else MPackUri), Param(i));
      BoundFits(CmpEq, Col(MMemberDid), Col(BuDid));
    }
  }

  predicate AllFit(es: seq<Expr>, above: nat) {
    forall k :: 0 <= k < |es| ==> Fits(es[k]) && Level(es[k]) > above
  }

  lemma {:induction false} ChainFits(op: BinOp, es: seq<Expr>)
    requires es != [] && GroupsLeft(op) && AllFit(es, OpLevel(op))
    ensures Fits(Chain(op, es)) && Level(Chain(op, es)) >= OpLevel(op)
  {
    if |es| > 1 {
      ChainFits(op, es[..|es| - 1]);
    }
  }

  lemma {:induction false} ExprsFit(g: Group, used: nat)
    ensures AllFit(ExprsOf(g, used), 1)
  {
    hide ConditionExpr, ConditionBinds;
    if g != [] {
      var before := g[..|g| - 1];
      ExprsFit(before, used);
      ConditionFits(g[|g| - 1], used + |BindsOf(before)| + 1);
    }
  }

  lemma GroupFits(g: Group, used: nat)
    ensures Fits(GroupExpr(g, used)) && Level(GroupExpr(g, used)) == 9
  {
    hide ConditionExpr, ConditionBinds;
    if g != [] {
      ExprsFit(g, used);
      ChainFits(AndOp, ExprsOf(g, used));
    }
  }

  lemma {:induction false} GroupsFit(groups: seq<Group>, used: nat)
    ensures AllFit(GroupExprs(groups, used), 8)
  {
    hide GroupExpr, BindsOf;
    if groups != [] {
      var before := groups[..|groups| - 1];
      GroupsFit(before, used);
      GroupFits(groups[|groups| - 1], used + |TreeBinds(before)|);
    }
  }

  lemma WhereFits(tree: RuleTree, offset: nat)
    ensures Fits(WhereExpr(tree, offset)) && Level(WhereExpr(tree, offset)) == 9
  {
    hide GroupExprs;
    if !tree.grantOnAnyRelation && tree.groups != [] {
      GroupsFit(tree.groups, offset);
      ChainFits(OrOp, GroupExprs(tree.groups, offset));
    }
  }

  /** Read under SQL precedence, the emitted text is the OR of the groups' ANDs. */
  lemma ClauseReadsBack(tree: RuleTree, offset: nat)
    ensures Parse(Print(WhereExpr(tree, offset))) == Some(WhereExpr(tree, offset))
  {
    WhereFits(tree, offset);
    ParsePrinted(WhereExpr(tree, offset));
  }

  // ---------- Placeholders ----------

  /** first, first + 1, ..., for `n` numbers. */
  function Run(first: nat, n: nat): (r: seq<nat>)
    ensures |r| == n && forall k :: 0 <= k < n ==> r[k] == first + k
  {
    seq(n, k requires 0 <= k => first + k)
  }

  lemma RunSplits(first: nat, m: nat, n: nat)
    ensures Run(first, m) + Run(first + m, n) == Run(first, m + n)
  {
  }

  lemma ParamsOfOne(op: BinOp, l: Expr, i: nat)
    requires ParamsOf(l) == []
    ensures ParamsOf(Binary(op, l, Param(i))) == [i]
    ensures ParamsOf(Paren(l)) == [] && ParamsOf(Call(Lower, l)) == [] && ParamsOf(IsNotNull(l)) == []
  {
  }

  lemma ParamsOfArray(cmp: Comparison, all: bool, l: Expr, i: nat)
    requires ParamsOf(l) == []
    ensures ParamsOf(Quantified(cmp, all, l, CastTextArray(Param(i)))) == [i]
  {
    assert ParamsOf(CastTextArray(Param(i))) == [i];
  }

  lemma ComparisonParams(c: Condition, e: Expr, i: nat)
    requires ParamsOf(e) == []
    ensures ParamsOf(ComparisonExpr(c, e, i)) == Run(i, |ComparisonBinds(c)|)
  {
    ParamsOfOne(AndOp, e, i);
    match c.op
    case Between =>
      ParamsOfOne(Cmp(CmpGe), Paren(e), i);
      ParamsOfOne(Cmp(CmpLe), Paren(e), i + 1);
    case In => ParamsOfArray(CmpEq, false, e, i);
    case NotIn => ParamsOfArray(CmpNe, true, e, i);
    case _ =>
  }

  lemma ConditionParams(c: Condition, i: nat)
    ensures ParamsOf(ConditionExpr(c, i)) == Run(i, |ConditionBinds(c)|)
  {
    if !c.target.IsMembership() {
      TargetFits(c.target);
      ComparisonParams(c, TargetExpr(c.target).value, i);
    } else {
      assert ParamsOf(Binary(Cmp(CmpEq), Col(if c.target.IsOnList? then MListUri else MPackUri), Param(i))) == [i];
      assert ParamsOf(Binary(Cmp(CmpEq), Col(MMemberDid), Col(BuDid))) == [];
    }
  }

  lemma {:induction false} AndChainParams(g: Group, used: nat)
    requires g != []
    ensures ParamsOf(Chain(AndOp, ExprsOf(g, used))) == Run(used + 1, |BindsOf(g)|)
  {
    hide ConditionExpr, ConditionBinds;
    var before, last := g[..|g| - 1], g[|g| - 1];
    var es := ExprsOf(g, used);
    ConditionParams(last, used + |BindsOf(before)| + 1);
    if before != [] {
      AndChainParams(before, used);
      assert es[..|es| - 1] == ExprsOf(before, used);
      RunSplits(used + 1, |BindsOf(before)|, |ConditionBinds(last)|);
    } else {
      assert es == [ConditionExpr(last, used + 1)];
    }
  }

  lemma GroupParams(g: Group, used: nat)
    ensures ParamsOf(GroupExpr(g, used)) == Run(used + 1, |BindsOf(g)|)
  {
    hide ConditionExpr, ConditionBinds;
    if g != [] {
      AndChainParams(g, used);
    }
  }

  lemma {:induction false} OrChainParams(groups: seq<Group>, used: nat)
    requires groups != []
    ensures ParamsOf(Chain(OrOp, GroupExprs(groups, used))) == Run(used + 1, |TreeBinds(groups)|)
  {
    hide GroupExpr, BindsOf;
    var before, last := groups[..|groups| - 1], groups[|groups| - 1];
    var es := GroupExprs(groups, used);
    GroupParams(last, used + |TreeBinds(before)|);
    if before != [] {
      OrChainParams(before, used);
      assert es[..|es| - 1] == GroupExprs(before, used);
      RunSplits(used + 1, |TreeBinds(before)|, |BindsOf(last)|);
    } else {
      assert es == [GroupExpr(last, used)];
    }
  }

  /**
   * Parameter discipline: the placeholders written in the clause are offset + 1, offset + 2, ...,
   * one for each bound value; so the next index is free for the caller.
   */
  lemma PlaceholdersMatchBinds(tree: RuleTree, offset: nat)
    ensures Placeholders(Print(WhereExpr(tree, offset))) == Run(offset + 1, |WhereBinds(tree)|)
  {
    PlaceholdersOfPrinted(WhereExpr(tree, offset));
    hide GroupExprs;
    if !tree.grantOnAnyRelation && tree.groups != [] {
      OrChainParams(tree.groups, offset);
    }
  }

  /**
   * While one list of binds grows: the clause of a condition, compiled after `before`, means the same
   * once the conditions after it have appended `later`, and whatever the caller binds behind them.
   */
  lemma EarlierClausesKeepMeaning(
      c: Condition, env: Env, caller: seq<V>, before: seq<Bind>, later: seq<Bind>, tail: seq<V>)
    requires env.params == caller + ValuesOf(before + ConditionBinds(c))
    ensures var clause := ConditionExpr(c, |caller| + |before| + 1);
            Eval(clause, env)
            == Eval(clause, env.(params := caller + ValuesOf(before + ConditionBinds(c) + later) + tail))
  {
    hide ConditionExpr, ConditionBinds, ParamsOf, Eval;
    var i := |caller| + |before| + 1;
    var binds := before + ConditionBinds(c);
    ConditionParams(c, i);
    SameWhileGrowing(caller, binds, later, tail, i, |ConditionBinds(c)|);
    EvalReadsOnlyItsParams(ConditionExpr(c, i), env, caller + ValuesOf(binds + later) + tail);
  }

  lemma SameWhileGrowing(caller: seq<V>, binds: seq<Bind>, later: seq<Bind>, tail: seq<V>, first: nat, n: nat)
    requires 1 <= first && first - 1 + n <= |caller| + |binds|
    ensures SameAt(Run(first, n), caller + ValuesOf(binds), caller + ValuesOf(binds + later) + tail)
  {
    assert ValuesOf(binds + later) == ValuesOf(binds) + ValuesOf(later);
    var p := caller + ValuesOf(binds);
    assert caller + ValuesOf(binds + later) + tail == p + (ValuesOf(later) + tail);
  }

  /** The whole clause keeps its meaning when the caller binds more. */
  lemma ClauseKeepsMeaning(tree: RuleTree, env: Env, caller: seq<V>, later: seq<V>)
    requires env.params == caller + ValuesOf(WhereBinds(tree))
    ensures Eval(WhereExpr(tree, |caller|), env)
         == Eval(WhereExpr(tree, |caller|), env.(params := env.params + later))
  {
    PlaceholdersMatchBinds(tree, |caller|);
    PlaceholdersOfPrinted(WhereExpr(tree, |caller|));
    EvalReadsOnlyItsParams(WhereExpr(tree, |caller|), env, env.params + later);
  }

  function ValuesOf(binds: seq<Bind>): (vs: seq<V>)
    ensures |vs| == |binds| && forall k :: 0 <= k < |binds| ==> vs[k] == binds[k].Value()
  {
    seq(|binds|, k requires 0 <= k < |binds| => binds[k].Value())
  }
}
