/**
 * The rule compiler: a rule tree becomes the text of a WHERE clause and the list of values bound to
 * its placeholders. `ConditionExpr` and `WhereExpr` say which expression the text must spell.
 */
module RuleSql {
  import opened Wrappers
  import opened Json
  import opened Rules
  import opened Sql
  import opened SqlText
  import Like

  datatype Bind = BindBool(b: bool) | BindInt(n: I64) | BindText(s: string) | BindTexts(a: seq<string>)
  {
    /** The parameter value the database receives. */
    function Value(): V {
      match this
      case BindBool(b) => VBool(b)
      case BindInt(n) => VNum(n as real)
      case BindText(s) => VText(s)
      case BindTexts(a) => VTexts(a)
    }

    function Type(): Sql.Type {
      match this
      case BindBool(_) => TBool
      case BindInt(_) => TNum
      case BindText(_) => TText
      case BindTexts(_) => TTexts
    }
  }

  // ---------- The expression a rule stands for ----------

  function OrFalse(c: Column): Expr {
    Coalesce(Col(c), BoolLit(false))
  }

  function OrZero(c: Column): Expr {
    Coalesce(Col(c), IntLit(0))
  }

  function WholeDaysSince(c: Column): Expr {
    Call(Floor, Binary(DivOp, Call(Epoch, Paren(Binary(MinusOp, Now, Col(c)))), IntLit(86400)))
  }

  /** `target_expr`; memberships have no expression of their own. */
  function TargetExpr(t: Target): Option<Expr> {
    match t
    case IsFollower => Some(OrFalse(ArIsFollower))
    case FollowAgeDays => Some(WholeDaysSince(ArFollowedAt))
    case IsFollowedBack => Some(OrFalse(ArIsFollowedBack))
    case IsMutual => Some(Paren(Binary(AndOp, OrFalse(ArIsFollower), OrFalse(ArIsFollowedBack))))
    case LikedPostsCount => Some(OrZero(ArLikedPosts))
    case RepostedPostsCount => Some(OrZero(ArRepostedPosts))
    case RepliedPostsCount => Some(OrZero(ArRepliedPosts))
    case AccountAgeDays => Some(WholeDaysSince(BuCreatedAt))
    case PostsCount => Some(Col(BuPostsCount))
    case FollowersCount => Some(Col(BuFollowersCount))
    case FollowsCount => Some(Col(BuFollowsCount))
    case Handle => Some(Col(BuHandle))
    case HandleDomain => Some(Col(BuHandleDomain))
    case HasCustomDomain => Some(OrFalse(BuHasCustomDomain))
    case DisplayName => Some(Col(BuDisplayName))
    case Description => Some(Col(BuDescription))
    case HasAvatar => Some(OrFalse(BuHasAvatar))
    case HasBanner => Some(OrFalse(BuHasBanner))
    case PdsHost => Some(Col(BuPdsHost))
    case IsOnList | IsOnStarterPack => None
  }

  function StrOrEmpty(v: Json.Value): string {
    if v.Str? then v.s else ""
  }

  function IntOr(v: Json.Value, default: I64): I64 {
    if v.AsI64().Some? then v.AsI64().value else default
  }

  function UpperBound(c: Condition): I64 {
    IntOr(if c.valueEnd.Some? then c.valueEnd.value else Json.Null, IntOr(c.value, 0))
  }

  function StrArray(c: Condition): seq<string> {
    if c.value.Array? then StringsOf(c.value.elems) else []
  }

  /** What `= $i` and its variants bind: the value in its own type, or the text. */
  function ScalarBind(v: Json.Value): Bind {
    match v
    case Bool(b) => BindBool(b)
    case _ => if v.AsI64().Some? then BindInt(v.AsI64().value) else BindText(StrOrEmpty(v))
  }

  predicate IsOrdering(op: Operator) {
    op.Gt? || op.Gte? || op.Lt? || op.Lte?
  }

  function OrderingOp(op: Operator): Comparison
    requires IsOrdering(op)
  {
    match op
    case Gt => CmpGt
    case Gte => CmpGe
    case Lt => CmpLt
    case Lte => CmpLe
  }

  /** The values a comparison binds; the membership targets are not compared. */
  function ComparisonBinds(c: Condition): seq<Bind> {
    match c.op
    case Eq => [ScalarBind(c.value)]
    case Neq => if c.value.AsI64().Some? then [BindInt(c.value.AsI64().value)] else [BindText(StrOrEmpty(c.value))]
    case Gt | Gte | Lt | Lte => [BindInt(IntOr(c.value, 0))]
    case Between => [BindInt(IntOr(c.value, 0)), BindInt(UpperBound(c))]
    case Contains => [BindText(Like.ContainsPattern(StrOrEmpty(c.value)))]
    case Regex => [BindText(StrOrEmpty(c.value))]
    case In | NotIn => if StrArray(c) == [] then [] else [BindTexts(StrArray(c))]
  }

  /** The comparison of target expression `e`, its first placeholder being $i. */
  function ComparisonExpr(c: Condition, e: Expr, i: nat): Expr {
    match c.op
    case Eq => Binary(Cmp(CmpEq), e, Param(i))
    case Neq =>
      if c.value.AsI64().Some? then Binary(Cmp(CmpNe), e, Param(i)) else Binary(DistinctOp, e, Param(i))
    case Gt | Gte | Lt | Lte => Binary(Cmp(OrderingOp(c.op)), Paren(e), Param(i))
    case Between =>
      Paren(Binary(AndOp,
        Binary(Cmp(CmpGe), Paren(e), Param(i)),
        Binary(Cmp(CmpLe), Paren(e), Param(i + 1))))
    case Contains => Binary(LikeOp, Call(Lower, e), Call(Lower, Param(i)))
    case Regex => Binary(MatchOp, e, Param(i))
    case In => if StrArray(c) == [] then BoolLit(false) else Quantified(CmpEq, false, e, CastTextArray(Param(i)))
    case NotIn =>
      if StrArray(c) == [] then BoolLit(true)
      else Paren(Binary(AndOp, IsNotNull(e), Quantified(CmpNe, true, e, CastTextArray(Param(i)))))
  }

  function MembershipExpr(t: Target, i: nat): Expr
    requires t.IsMembership()
  {
    var (table, uri) := if t.IsOnList? then (ListMembers, MListUri) else (StarterPackMembers, MPackUri);
    Exists(table, Binary(AndOp,
      Binary(Cmp(CmpEq), Col(uri), Param(i)),
      Binary(Cmp(CmpEq), Col(MMemberDid), Col(BuDid))))
  }

  /** A membership condition that names nothing, or is not an equality, is FALSE. */
  predicate NamesNothing(c: Condition) {
    StrOrEmpty(c.value) == "" || !c.op.Eq?
  }

  function ConditionBinds(c: Condition): seq<Bind> {
    if !c.target.IsMembership() then ComparisonBinds(c)
    else if NamesNothing(c) then []
    else [BindText(StrOrEmpty(c.value))]
  }

  /** The expression of one condition whose first placeholder is $i. */
  function ConditionExpr(c: Condition, i: nat): Expr {
    if !c.target.IsMembership() then ComparisonExpr(c, TargetExpr(c.target).value, i)
    else if NamesNothing(c) then BoolLit(false)
    else MembershipExpr(c.target, i)
  }

  function BindsOf(conds: Group): seq<Bind> {
    if conds == [] then []
    else BindsOf(conds[..|conds| - 1]) + ConditionBinds(conds[|conds| - 1])
  }

  /** The conditions of one group, `used` placeholders being taken already. */
  function ExprsOf(conds: Group, used: nat): (es: seq<Expr>)
    ensures |es| == |conds|
  {
    if conds == [] then []
    else
      var before := conds[..|conds| - 1];
      ExprsOf(before, used) + [ConditionExpr(conds[|conds| - 1], used + |BindsOf(before)| + 1)]
  }

  /** A left-grouped chain e0 op e1 op ... */
  function Chain(op: BinOp, es: seq<Expr>): Expr
    requires es != []
  {
    if |es| == 1 then es[0] else Binary(op, Chain(op, es[..|es| - 1]), es[|es| - 1])
  }

  function GroupExpr(g: Group, used: nat): Expr {
    if g == [] then BoolLit(false) else Paren(Chain(AndOp, ExprsOf(g, used)))
  }

  function TreeBinds(groups: seq<Group>): seq<Bind> {
    if groups == [] then []
    else TreeBinds(groups[..|groups| - 1]) + BindsOf(groups[|groups| - 1])
  }

  function GroupExprs(groups: seq<Group>, used: nat): (es: seq<Expr>)
    ensures |es| == |groups|
  {
    if groups == [] then []
    else
      var before := groups[..|groups| - 1];
      GroupExprs(before, used) + [GroupExpr(groups[|groups| - 1], used + |TreeBinds(before)|)]
  }

  /** The OR of the groups' ANDs. */
  function WhereExpr(tree: RuleTree, offset: nat): Expr {
    if tree.grantOnAnyRelation then BoolLit(true)
    else if tree.groups == [] then BoolLit(false)
    else Paren(Chain(OrOp, GroupExprs(tree.groups, offset)))
  }

  function WhereBinds(tree: RuleTree): seq<Bind> {
    if tree.grantOnAnyRelation then [] else TreeBinds(tree.groups)
  }

  // ---------- The compiler ----------

  function Join(clauses: seq<Text>, separator: Text): Text {
    if clauses == [] then []
    else if |clauses| == 1 then clauses[0]
    else Join(clauses[..|clauses| - 1], separator) + separator + clauses[|clauses| - 1]
  }

  function PrintAll(es: seq<Expr>): (texts: seq<Text>)
    ensures |texts| == |es|
  {
    if es == [] then [] else PrintAll(es[..|es| - 1]) + [Print(es[|es| - 1])]
  }

  lemma {:induction false} JoinedTextIsChain(op: BinOp, es: seq<Expr>)
    requires es != []
    ensures Join(PrintAll(es), [Op(op)]) == Print(Chain(op, es))
  {
    if |es| == 1 {
      assert PrintAll(es) == [Print(es[0])];
    } else {
      JoinedTextIsChain(op, es[..|es| - 1]);
      assert PrintAll(es)[..|es| - 1] == PrintAll(es[..|es| - 1]);
    }
  }

  method BuildCondition(c: Condition, offset: nat, binds: seq<Bind>) returns (text: Text, out: seq<Bind>)
    ensures out == binds + ConditionBinds(c)
    ensures text == Print(ConditionExpr(c, offset + |binds| + 1))
  {
    var i := offset + |binds| + 1;
    out := binds;

    if c.target.IsMembership() {
      var uri := StrOrEmpty(c.value);
      if uri == "" || !c.op.Eq? {
        return [BoolWord(false)], out;
      }
      out := out + [BindText(uri)];
      var table, column := ListMembers, MListUri;
      if c.target.IsOnStarterPack? {
        table, column := StarterPackMembers, MPackUri;
      }
      text := [ExistsHead(table), ColumnName(column), Op(Cmp(CmpEq)), Placeholder(i), Op(AndOp),
               ColumnName(MMemberDid), Op(Cmp(CmpEq)), ColumnName(BuDid), RParen];
      MembershipText(table, column, i);
      return;
    }

    text, out := BuildComparison(c, TargetExpr(c.target).value, Print(TargetExpr(c.target).value), i, binds);
  }

  /** The operators of `build_condition`, given the text `expr` of the target. */
  method BuildComparison(c: Condition, ghost e: Expr, expr: Text, i: nat, binds: seq<Bind>)
    returns (text: Text, out: seq<Bind>)
    requires expr == Print(e)
    ensures out == binds + ComparisonBinds(c)
    ensures text == Print(ComparisonExpr(c, e, i))
  {
    hide Print, ComparisonExpr, ComparisonBinds;
    match c.op {
      case Eq | Neq | Regex => text, out := BuildEquality(c, e, expr, i, binds);
      case Gt | Gte | Lt | Lte => text, out := BuildOrdering(c, e, expr, i, binds);
      case Between => text, out := BuildBetween(c, e, expr, i, binds);
      case Contains => text, out := BuildContains(c, e, expr, i, binds);
      case In => text, out := BuildIn(c, e, expr, i, binds);
      case NotIn => text, out := BuildNotIn(c, e, expr, i, binds);
    }
  }

  method BuildEquality(c: Condition, ghost e: Expr, expr: Text, i: nat, binds: seq<Bind>)
    returns (text: Text, out: seq<Bind>)
    requires expr == Print(e) && (c.op.Eq? || c.op.Neq? || c.op.Regex?)
    ensures out == binds + ComparisonBinds(c)
    ensures text == Print(ComparisonExpr(c, e, i))
  {
    hide Print;
    PlainText(Cmp(CmpEq), e, i);
    PlainText(Cmp(CmpNe), e, i);
    PlainText(DistinctOp, e, i);
    PlainText(MatchOp, e, i);
    if c.op.Eq? {
      if c.value.AsBool().Some? {
        out := binds + [BindBool(c.value.AsBool().value)];
      } else if c.value.AsI64().Some? {
        out := binds + [BindInt(c.value.AsI64().value)];
      } else {
        out := binds + [BindText(StrOrEmpty(c.value))];
      }
      text := expr + [Op(Cmp(CmpEq)), Placeholder(i)];
    } else if c.op.Neq? {
      if c.value.AsI64().Some? {
        out := binds + [BindInt(c.value.AsI64().value)];
        text := expr + [Op(Cmp(CmpNe)), Placeholder(i)];
      } else {
        out := binds + [BindText(StrOrEmpty(c.value))];
        text := expr + [Op(DistinctOp), Placeholder(i)];
      }
    } else {
      out := binds + [BindText(StrOrEmpty(c.value))];
      text := expr + [Op(MatchOp), Placeholder(i)];
    }
  }

  method BuildOrdering(c: Condition, ghost e: Expr, expr: Text, i: nat, binds: seq<Bind>)
    returns (text: Text, out: seq<Bind>)
    requires expr == Print(e) && IsOrdering(c.op)
    ensures out == binds + ComparisonBinds(c)
    ensures text == Print(ComparisonExpr(c, e, i))
  {
    out := binds + [BindInt(IntOr(c.value, 0))];
    text := [LParen] + expr + [RParen, Op(Cmp(OrderingOp(c.op))), Placeholder(i)];
    BoundText(OrderingOp(c.op), e, i);
  }

  method BuildBetween(c: Condition, ghost e: Expr, expr: Text, i: nat, binds: seq<Bind>)
    returns (text: Text, out: seq<Bind>)
    requires expr == Print(e) && c.op.Between?
    ensures out == binds + ComparisonBinds(c)
    ensures text == Print(ComparisonExpr(c, e, i))
  {
    var lo := IntOr(c.value, 0);
    var hi := IntOr(if c.valueEnd.Some? then c.valueEnd.value else Json.Null, lo);
    out := binds + [BindInt(lo)];
    out := out + [BindInt(hi)];
    var atLeast := [LParen] + expr + [RParen, Op(Cmp(CmpGe)), Placeholder(i)];
    var atMost := [LParen] + expr + [RParen, Op(Cmp(CmpLe)), Placeholder(i + 1)];
    text := [LParen] + atLeast + [Op(AndOp)] + atMost + [RParen];
    hide Print;
    BoundText(CmpGe, e, i);
    BoundText(CmpLe, e, i + 1);
    RangeText(Binary(Cmp(CmpGe), Paren(e), Param(i)), Binary(Cmp(CmpLe), Paren(e), Param(i + 1)));
  }

  method BuildContains(c: Condition, ghost e: Expr, expr: Text, i: nat, binds: seq<Bind>)
    returns (text: Text, out: seq<Bind>)
    requires expr == Print(e) && c.op.Contains?
    ensures out == binds + ComparisonBinds(c)
    ensures text == Print(ComparisonExpr(c, e, i))
  {
    out := binds + [BindText("%" + Like.EscapeLike(StrOrEmpty(c.value)) + "%")];
    text := [FunctionName(Lower), LParen] + expr
          + [RParen, Op(LikeOp), FunctionName(Lower), LParen, Placeholder(i), RParen];
    hide Print;
    LikeText(e, i);
  }

  method BuildIn(c: Condition, ghost e: Expr, expr: Text, i: nat, binds: seq<Bind>)
    returns (text: Text, out: seq<Bind>)
    requires expr == Print(e) && c.op.In?
    ensures out == binds + ComparisonBinds(c)
    ensures text == Print(ComparisonExpr(c, e, i))
  {
    var strs := StrArray(c);
    if strs == [] {
      return [BoolWord(false)], binds;
    }
    out := binds + [BindTexts(strs)];
    text := expr + [Op(Cmp(CmpEq)), AnyWord, LParen, Placeholder(i), TextArrayCast, RParen];
    ArrayText(CmpEq, false, e, i);
  }

  method BuildNotIn(c: Condition, ghost e: Expr, expr: Text, i: nat, binds: seq<Bind>)
    returns (text: Text, out: seq<Bind>)
    requires expr == Print(e) && c.op.NotIn?
    ensures out == binds + ComparisonBinds(c)
    ensures text == Print(ComparisonExpr(c, e, i))
  {
    var strs := StrArray(c);
    if strs == [] {
      return [BoolWord(true)], binds;
    }
    out := binds + [BindTexts(strs)];
    text := [LParen] + expr + [IsNotNullWords, Op(AndOp)] + expr
          + [Op(Cmp(CmpNe)), AllWord, LParen, Placeholder(i), TextArrayCast, RParen, RParen];
    GuardedText(e, expr, i);
  }

  lemma GuardedText(e: Expr, expr: Text, i: nat)
    requires expr == Print(e)
    ensures Print(Paren(Binary(AndOp, IsNotNull(e), Quantified(CmpNe, true, e, CastTextArray(Param(i))))))
         == [LParen] + expr + [IsNotNullWords, Op(AndOp)] + expr
            + [Op(Cmp(CmpNe)), AllWord, LParen, Placeholder(i), TextArrayCast, RParen, RParen]
  {
    NotNullText(e);
    hide Print;
    ArrayText(CmpNe, true, e, i);
    RangeText(IsNotNull(e), Quantified(CmpNe, true, e, CastTextArray(Param(i))));
    var tail: Text := [Op(Cmp(CmpNe)), AllWord, LParen, Placeholder(i), TextArrayCast, RParen];
    assert [LParen] + (expr + [IsNotNullWords]) + [Op(AndOp)] + (expr + tail) + [RParen]
        == [LParen] + expr + [IsNotNullWords, Op(AndOp)] + expr + (tail + [RParen]);
  }

  lemma NotNullText(e: Expr)
    ensures Print(IsNotNull(e)) == Print(e) + [IsNotNullWords]
  {
  }

  lemma PlainText(op: BinOp, e: Expr, i: nat)
    ensures Print(Binary(op, e, Param(i))) == Print(e) + [Op(op), Placeholder(i)]
  {
    assert Print(Param(i)) == [Placeholder(i)];
  }

  lemma BoundText(cmp: Comparison, e: Expr, i: nat)
    ensures Print(Binary(Cmp(cmp), Paren(e), Param(i))) == [LParen] + Print(e) + [RParen, Op(Cmp(cmp)), Placeholder(i)]
  {
    assert Print(Paren(e)) == [LParen] + Print(e) + [RParen];
  }

  lemma RangeText(l: Expr, r: Expr)
    ensures Print(Paren(Binary(AndOp, l, r))) == [LParen] + Print(l) + [Op(AndOp)] + Print(r) + [RParen]
  {
    assert Print(Binary(AndOp, l, r)) == Print(l) + [Op(AndOp)] + Print(r);
  }

  lemma LikeText(e: Expr, i: nat)
    ensures Print(Binary(LikeOp, Call(Lower, e), Call(Lower, Param(i))))
         == [FunctionName(Lower), LParen] + Print(e)
          + [RParen, Op(LikeOp), FunctionName(Lower), LParen, Placeholder(i), RParen]
  {
    assert Print(Call(Lower, e)) == [FunctionName(Lower), LParen] + Print(e) + [RParen];
    assert Print(Param(i)) == [Placeholder(i)];
    assert Print(Call(Lower, Param(i))) == [FunctionName(Lower), LParen, Placeholder(i), RParen];
  }

  lemma ArrayText(cmp: Comparison, all: bool, e: Expr, i: nat)
    ensures Print(Quantified(cmp, all, e, CastTextArray(Param(i))))
         == Print(e) + [Op(Cmp(cmp)), if all then AllWord else AnyWord, LParen, Placeholder(i), TextArrayCast, RParen]
  {
    assert Print(Param(i)) == [Placeholder(i)];
    assert Print(CastTextArray(Param(i))) == [Placeholder(i), TextArrayCast];
  }

  lemma MembershipText(table: Table, uri: Column, i: nat)
    ensures Print(Exists(table, Binary(AndOp, Binary(Cmp(CmpEq), Col(uri), Param(i)),
                                      Binary(Cmp(CmpEq), Col(MMemberDid), Col(BuDid)))))
         == [ExistsHead(table), ColumnName(uri), Op(Cmp(CmpEq)), Placeholder(i), Op(AndOp),
             ColumnName(MMemberDid), Op(Cmp(CmpEq)), ColumnName(BuDid), RParen]
  {
    var l, r := Binary(Cmp(CmpEq), Col(uri), Param(i)), Binary(Cmp(CmpEq), Col(MMemberDid), Col(BuDid));
    assert Print(l) == [ColumnName(uri), Op(Cmp(CmpEq)), Placeholder(i)];
    assert Print(r) == [ColumnName(MMemberDid), Op(Cmp(CmpEq)), ColumnName(BuDid)];
    assert Print(Binary(AndOp, l, r)) == Print(l) + [Op(AndOp)] + Print(r);
  }

  /** `build_rule_where`: the outer loop over the groups. */
  method BuildRuleWhere(tree: RuleTree, offset: nat) returns (text: Text, binds: seq<Bind>)
    ensures text == Print(WhereExpr(tree, offset))
    ensures binds == WhereBinds(tree)
  {
    hide GroupExpr, BindsOf;
    if tree.grantOnAnyRelation {
      return [BoolWord(true)], [];
    }
    if tree.groups == [] {
      return [BoolWord(false)], [];
    }

    binds := [];
    var clauses: seq<Text> := [];
    ghost var es: seq<Expr> := [];
    for gi := 0 to |tree.groups|
      invariant binds == TreeBinds(tree.groups[..gi])
      invariant es == GroupExprs(tree.groups[..gi], offset) && clauses == PrintAll(es)
    {
      GroupExprsGrow(tree.groups, gi, offset);
      ghost var e := GroupExpr(tree.groups[gi], offset + |binds|);
      var clause;
      clause, binds := BuildGroup(tree.groups[gi], offset, binds);
      PrintAllPush(es, e);
      clauses, es := clauses + [clause], es + [e];
    }
    assert tree.groups[..|tree.groups|] == tree.groups;
    text := JoinClauses(OrOp, clauses, es);
  }

  /** The inner loop over the conditions of one group. */
  method BuildGroup(group: Group, offset: nat, binds: seq<Bind>) returns (text: Text, out: seq<Bind>)
    ensures out == binds + BindsOf(group)
    ensures text == Print(GroupExpr(group, offset + |binds|))
  {
    hide ConditionExpr, ConditionBinds, Print, Chain, GroupExpr, BindsOf, ExprsOf, PrintAll;
    out := binds;
    GroupText(group, offset + |binds|);
    NothingYet(offset + |binds|);
    if group == [] {
      return [BoolWord(false)], out;
    }
    var clauses: seq<Text> := [];
    ghost var es: seq<Expr> := [];
    for ci := 0 to |group|
      invariant out == binds + BindsOf(group[..ci])
      invariant es == ExprsOf(group[..ci], offset + |binds|) && clauses == PrintAll(es)
    {
      ExprsGrow(group, ci, offset + |binds|);
      ghost var e := ConditionExpr(group[ci], offset + |out| + 1);
      var clause;
      clause, out := BuildCondition(group[ci], offset, out);
      PrintAllPush(es, e);
      clauses, es := clauses + [clause], es + [e];
    }
    assert group[..|group|] == group;
    text := JoinClauses(AndOp, clauses, es);
  }

  lemma NothingYet(used: nat)
    ensures BindsOf([]) == [] && ExprsOf([], used) == [] && PrintAll([]) == []
  {
  }

  lemma GroupText(group: Group, used: nat)
    ensures group == [] ==> Print(GroupExpr(group, used)) == [BoolWord(false)] && BindsOf(group) == []
    ensures group != [] ==> GroupExpr(group, used) == Paren(Chain(AndOp, ExprsOf(group, used)))
  {
  }

  /** Clauses joined by one operator, in parentheses. */
  method JoinClauses(op: BinOp, clauses: seq<Text>, ghost es: seq<Expr>) returns (text: Text)
    requires es != [] && clauses == PrintAll(es)
    ensures text == Print(Paren(Chain(op, es)))
  {
    JoinedTextIsChain(op, es);
    text := [LParen] + Join(clauses, [Op(op)]) + [RParen];
  }

  lemma PrintAllPush(es: seq<Expr>, e: Expr)
    ensures PrintAll(es + [e]) == PrintAll(es) + [Print(e)]
  {
    assert (es + [e])[..|es|] == es;
  }

  /** One more condition appends its binds and its clause to those of the conditions before it. */
  lemma ExprsGrow(g: Group, n: nat, used: nat)
    requires n < |g|
    ensures BindsOf(g[..n + 1]) == BindsOf(g[..n]) + ConditionBinds(g[n])
    ensures ExprsOf(g[..n + 1], used)
         == ExprsOf(g[..n], used) + [ConditionExpr(g[n], used + |BindsOf(g[..n])| + 1)]
  {
    hide ConditionExpr, ConditionBinds;
    assert g[..n + 1][..n] == g[..n];
  }

  lemma GroupExprsGrow(groups: seq<Group>, n: nat, used: nat)
    requires n < |groups|
    ensures TreeBinds(groups[..n + 1]) == TreeBinds(groups[..n]) + BindsOf(groups[n])
    ensures GroupExprs(groups[..n + 1], used)
         == GroupExprs(groups[..n], used) + [GroupExpr(groups[n], used + |TreeBinds(groups[..n])|)]
  {
    hide GroupExpr, BindsOf;
    assert groups[..n + 1][..n] == groups[..n];
  }
}
