/** Static typing of the compiled clause: every parameter has the type of what it is compared with. */
module CompilerTypes {
  import opened Wrappers
  import opened Rules
  import opened Sql
  import opened RuleSql

  function TypesOf(binds: seq<Bind>): (ts: seq<Sql.Type>)
    ensures |ts| == |binds| && forall k :: 0 <= k < |binds| ==> ts[k] == binds[k].Type()
  {
    seq(|binds|, k requires 0 <= k < |binds| => binds[k].Type())
  }

  /** The types of the placeholders after the first `used` are those of the binds. */
  predicate TypedAfter(params: seq<Sql.Type>, used: nat, binds: seq<Bind>) {
    used + |binds| <= |params| && params[used..used + |binds|] == TypesOf(binds)
  }

  lemma TypedParts(params: seq<Sql.Type>, used: nat, left: seq<Bind>, right: seq<Bind>)
    requires TypedAfter(params, used, left + right)
    ensures TypedAfter(params, used, left) && TypedAfter(params, used + |left|, right)
  {
    var all := params[used..used + |left + right|];
    assert params[used..used + |left|] == all[..|left|] == TypesOf(left);
    assert params[used + |left|..used + |left| + |right|] == all[|left|..] == TypesOf(right);
  }

  function KindType(k: TargetKind): Sql.Type {
    match k
    case BoolKind => TBool
    case IntKind => TNum
    case StringKind => TText
  }

  lemma DaysType(c: Column, params: seq<Sql.Type>)
    requires ColumnType(c) == TTime
    ensures TypeOf(WholeDaysSince(c), params) == Some(TNum)
  {
    var span := Paren(Binary(MinusOp, Now, Col(c)));
    assert TypeOf(Binary(MinusOp, Now, Col(c)), params) == Some(TSpan);
    assert TypeOf(span, params) == Some(TSpan);
    assert TypeOf(Call(Epoch, span), params) == Some(TNum);
    assert TypeOf(Binary(DivOp, Call(Epoch, span), IntLit(86400)), params) == Some(TNum);
  }

  lemma DefaultedType(c: Column, params: seq<Sql.Type>)
    ensures ColumnType(c) == TBool ==> TypeOf(OrFalse(c), params) == Some(TBool)
    ensures ColumnType(c) == TNum ==> TypeOf(OrZero(c), params) == Some(TNum)
  {
    assert TypeOf(Col(c), params) == Some(ColumnType(c));
  }

  lemma ColumnIsTyped(c: Column, params: seq<Sql.Type>)
    ensures TypeOf(Col(c), params) == Some(ColumnType(c))
  {
  }

  lemma MutualType(params: seq<Sql.Type>)
    ensures TypeOf(TargetExpr(IsMutual).value, params) == Some(TBool)
  {
    DefaultedType(ArIsFollower, params);
    DefaultedType(ArIsFollowedBack, params);
    assert TypeOf(Binary(AndOp, OrFalse(ArIsFollower), OrFalse(ArIsFollowedBack)), params) == Some(TBool);
  }

  lemma TargetType(t: Target, params: seq<Sql.Type>)
    requires !t.IsMembership()
    ensures TypeOf(TargetExpr(t).value, params) == Some(KindType(t.Kind()))
  {
    hide TypeOf;
    match t
    case FollowAgeDays => DaysType(ArFollowedAt, params);
    case AccountAgeDays => DaysType(BuCreatedAt, params);
    case IsFollower => DefaultedType(ArIsFollower, params);
    case IsFollowedBack => DefaultedType(ArIsFollowedBack, params);
    case IsMutual => MutualType(params);
    case HasCustomDomain => DefaultedType(BuHasCustomDomain, params);
    case HasAvatar => DefaultedType(BuHasAvatar, params);
    case HasBanner => DefaultedType(BuHasBanner, params);
    case LikedPostsCount => DefaultedType(ArLikedPosts, params);
    case RepostedPostsCount => DefaultedType(ArRepostedPosts, params);
    case RepliedPostsCount => DefaultedType(ArRepliedPosts, params);
    case PostsCount | FollowersCount | FollowsCount | Handle | HandleDomain | DisplayName | Description | PdsHost =>
      ColumnIsTyped(TargetExpr(t).value.column, params);
    case _ =>
  }

  lemma ParamType(params: seq<Sql.Type>, used: nat, binds: seq<Bind>, k: nat)
    requires TypedAfter(params, used, binds) && k < |binds|
    ensures TypeOf(Param(used + k + 1), params) == Some(binds[k].Type())
  {
    assert params[used..used + |binds|][k] == TypesOf(binds)[k];
  }

  lemma BoundType(cmp: Comparison, e: Expr, i: nat, params: seq<Sql.Type>)
    requires TypeOf(e, params) == TypeOf(Param(i), params) == Some(TNum)
    ensures TypeOf(Binary(Cmp(cmp), Paren(e), Param(i)), params) == Some(TBool)
  {
    assert TypeOf(Paren(e), params) == Some(TNum);
  }

  lemma IntComparisonType(c: Condition, e: Expr, used: nat, params: seq<Sql.Type>)
    requires WellFormed(c) && c.target.Kind().IntKind?
    requires TypedAfter(params, used, ComparisonBinds(c)) && TypeOf(e, params) == Some(TNum)
    ensures TypeOf(ComparisonExpr(c, e, used + 1), params) == Some(TBool)
  {
    ParamType(params, used, ComparisonBinds(c), 0);
    if c.op.Between? {
      ParamType(params, used, ComparisonBinds(c), 1);
      BoundType(CmpGe, e, used + 1, params);
      BoundType(CmpLe, e, used + 2, params);
      assert TypeOf(Binary(AndOp, Binary(Cmp(CmpGe), Paren(e), Param(used + 1)),
                                  Binary(Cmp(CmpLe), Paren(e), Param(used + 2))), params) == Some(TBool);
    } else if IsOrdering(c.op) {
      BoundType(OrderingOp(c.op), e, used + 1, params);
    }
  }

  lemma BoolComparisonType(c: Condition, e: Expr, used: nat, params: seq<Sql.Type>)
    requires WellFormed(c) && c.target.Kind().BoolKind?
    requires TypedAfter(params, used, ComparisonBinds(c)) && TypeOf(e, params) == Some(TBool)
    ensures TypeOf(ComparisonExpr(c, e, used + 1), params) == Some(TBool)
  {
    ParamType(params, used, ComparisonBinds(c), 0);
  }

  lemma ListType(cmp: Comparison, all: bool, e: Expr, i: nat, params: seq<Sql.Type>)
    requires TypeOf(e, params) == Some(TText) && TypeOf(Param(i), params) == Some(TTexts)
    ensures TypeOf(Quantified(cmp, all, e, CastTextArray(Param(i))), params) == Some(TBool)
  {
    assert TypeOf(CastTextArray(Param(i)), params) == Some(TTexts);
  }

  lemma NotInType(e: Expr, i: nat, params: seq<Sql.Type>)
    requires TypeOf(e, params) == Some(TText) && TypeOf(Param(i), params) == Some(TTexts)
    ensures TypeOf(Paren(Binary(AndOp, IsNotNull(e), Quantified(CmpNe, true, e, CastTextArray(Param(i))))), params)
         == Some(TBool)
  {
    ListType(CmpNe, true, e, i, params);
    assert TypeOf(IsNotNull(e), params) == Some(TBool);
    assert TypeOf(Binary(AndOp, IsNotNull(e), Quantified(CmpNe, true, e, CastTextArray(Param(i)))), params)
        == Some(TBool);
  }

  lemma ContainsType(e: Expr, i: nat, params: seq<Sql.Type>)
    requires TypeOf(e, params) == TypeOf(Param(i), params) == Some(TText)
    ensures TypeOf(Binary(LikeOp, Call(Lower, e), Call(Lower, Param(i))), params) == Some(TBool)
  {
    assert TypeOf(Call(Lower, e), params) == TypeOf(Call(Lower, Param(i)), params) == Some(TText);
  }

  lemma PlainType(op: BinOp, l: Expr, r: Expr, params: seq<Sql.Type>)
    requires TypeOf(l, params) == TypeOf(r, params) == Some(TText)
    requires op in {Cmp(CmpEq), DistinctOp, MatchOp}
    ensures TypeOf(Binary(op, l, r), params) == Some(TBool)
  {
  }

  lemma TextComparisonType(c: Condition, e: Expr, used: nat, params: seq<Sql.Type>)
    requires WellFormed(c) && c.target.Kind().StringKind? && !c.target.IsMembership()
    requires TypedAfter(params, used, ComparisonBinds(c)) && TypeOf(e, params) == Some(TText)
    ensures TypeOf(ComparisonExpr(c, e, used + 1), params) == Some(TBool)
  {
    if ComparisonBinds(c) != [] {
      ParamType(params, used, ComparisonBinds(c), 0);
      hide TypeOf;
      match c.op
      case In => ListType(CmpEq, false, e, used + 1, params);
      case NotIn => NotInType(e, used + 1, params);
      case Contains => ContainsType(e, used + 1, params);
      case Eq => PlainType(Cmp(CmpEq), e, Param(used + 1), params);
      case Neq => PlainType(DistinctOp, e, Param(used + 1), params);
      case Regex => PlainType(MatchOp, e, Param(used + 1), params);
    }
  }

  lemma MembershipType(t: Target, i: nat, params: seq<Sql.Type>)
    requires t.IsMembership() && TypeOf(Param(i), params) == Some(TText)
    ensures TypeOf(MembershipExpr(t, i), params) == Some(TBool)
  {
    var l := Binary(Cmp(CmpEq), Col(if t.IsOnList? then MListUri else MPackUri), Param(i));
    var r := Binary(Cmp(CmpEq), Col(MMemberDid), Col(BuDid));
    assert TypeOf(l, params) == TypeOf(r, params) == Some(TBool);
    assert TypeOf(Binary(AndOp, l, r), params) == Some(TBool);
  }

  lemma ConditionType(c: Condition, used: nat, params: seq<Sql.Type>)
    requires WellFormed(c) && TypedAfter(params, used, ConditionBinds(c))
    ensures TypeOf(ConditionExpr(c, used + 1), params) == Some(TBool)
  {
    hide ComparisonExpr, ComparisonBinds, MembershipExpr;
    if c.target.IsMembership() {
      ParamType(params, used, ConditionBinds(c), 0);
      MembershipType(c.target, used + 1, params);
    } else {
      TargetType(c.target, params);
      var e := TargetExpr(c.target).value;
      match c.target.Kind()
      case BoolKind => BoolComparisonType(c, e, used, params);
      case IntKind => IntComparisonType(c, e, used, params);
      case StringKind => TextComparisonType(c, e, used, params);
    }
  }

  lemma {:induction false} AndChainType(g: Group, used: nat, params: seq<Sql.Type>)
    requires g != [] && TypedAfter(params, used, BindsOf(g))
    requires forall c :: c in g ==> WellFormed(c)
    ensures TypeOf(Chain(AndOp, ExprsOf(g, used)), params) == Some(TBool)
  {
    hide ConditionExpr, ConditionBinds, WellFormed;
    var before, last := g[..|g| - 1], g[|g| - 1];
    var es := ExprsOf(g, used);
    TypedParts(params, used, BindsOf(before), ConditionBinds(last));
    ConditionType(last, used + |BindsOf(before)|, params);
    if before != [] {
      AndChainType(before, used, params);
      assert es[..|es| - 1] == ExprsOf(before, used);
    }
  }

  lemma GroupType(g: Group, used: nat, params: seq<Sql.Type>)
    requires TypedAfter(params, used, BindsOf(g))
    requires forall c :: c in g ==> WellFormed(c)
    ensures TypeOf(GroupExpr(g, used), params) == Some(TBool)
  {
    hide BindsOf, ExprsOf, WellFormed;
    if g != [] {
      AndChainType(g, used, params);
    }
  }

  lemma {:induction false} OrChainType(groups: seq<Group>, used: nat, params: seq<Sql.Type>)
    requires groups != [] && TypedAfter(params, used, TreeBinds(groups))
    requires forall g, c :: g in groups && c in g ==> WellFormed(c)
    ensures TypeOf(Chain(OrOp, GroupExprs(groups, used)), params) == Some(TBool)
  {
    hide GroupExpr, BindsOf, WellFormed;
    var before, last := groups[..|groups| - 1], groups[|groups| - 1];
    var es := GroupExprs(groups, used);
    assert groups == before + [last];
    TypedParts(params, used, TreeBinds(before), BindsOf(last));
    GroupType(last, used + |TreeBinds(before)|, params);
    if before != [] {
      OrChainType(before, used, params);
      assert es[..|es| - 1] == GroupExprs(before, used);
    }
  }

  /** A validated tree compiles to a boolean clause: no operator meets an operand of another type. */
  lemma WhereIsTyped(tree: RuleTree, params: seq<Sql.Type>, offset: nat)
    requires WellFormedTree(tree) && TypedAfter(params, offset, WhereBinds(tree))
    ensures TypeOf(WhereExpr(tree, offset), params) == Some(TBool)
  {
    hide GroupExprs, WellFormed;
    if !tree.grantOnAnyRelation && tree.groups != [] {
      OrChainType(tree.groups, offset, params);
    }
  }
}
