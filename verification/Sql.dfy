/**
 * The fragment of SQL the rule compiler emits: its syntax tree, its text as a sequence of lexical
 * tokens, and its three-valued meaning (PostgreSQL 16, sections 4.1.6, 9.1, 9.2, 9.7 and 9.24).
 */
module Sql {
  import opened Wrappers
  import opened Facts
  import Strings
  import Like
  import opened ConditionEval

  datatype Column =
    // account_relations, LEFT JOINed as `ar`
    | ArIsFollower | ArFollowedAt | ArIsFollowedBack | ArLikedPosts | ArRepostedPosts | ArRepliedPosts
    // bsky_users, as `bu`
    | BuDiscordId | BuDid | BuHandle | BuHandleDomain | BuHasCustomDomain | BuPdsHost | BuDisplayName
    | BuDescription | BuHasAvatar | BuHasBanner | BuPostsCount | BuFollowersCount | BuFollowsCount
    | BuCreatedAt
    // a membership table, as `m` inside EXISTS
    | MListUri | MPackUri | MMemberDid

  datatype Table = ListMembers | StarterPackMembers

  datatype Comparison = CmpEq | CmpNe | CmpLt | CmpLe | CmpGt | CmpGe

  datatype Function = Floor | Epoch | Lower

  datatype BinOp = OrOp | AndOp | DistinctOp | Cmp(cmp: Comparison) | LikeOp | MatchOp | MinusOp | DivOp

  datatype Expr =
    | BoolLit(b: bool)
    | IntLit(n: nat)
    | Col(column: Column)
    | Param(i: nat)
    | Now
    | Paren(e: Expr)
    | Call(f: Function, e: Expr)
    | Coalesce(e: Expr, fallback: Expr)
    | Exists(table: Table, cond: Expr)
    | CastTextArray(e: Expr)
    | IsNotNull(e: Expr)
    | Quantified(cmp: Comparison, all: bool, l: Expr, r: Expr)
    | Binary(op: BinOp, l: Expr, r: Expr)

  // ---------- Meaning ----------

  /** A value, SQL NULL, or the error a query would stop with. */
  datatype V =
    | Fault
    | Null
    | VBool(b: bool)
    | VNum(r: real)
    | VText(s: string)
    | VTexts(a: seq<string>)
    | VTime(t: Instant)
    | VSpan(us: int)

  /** What one row of the query is evaluated against. `m` is set inside EXISTS only. */
  datatype Env = Env(
    host: Host,
    now: Instant,
    db: Db,
    discordId: string,
    user: UserRow,
    rel: Option<RelationRow>,
    m: Option<(Table, string, string)>,
    params: seq<V>)

  function Nullable(s: Option<string>): V {
    if s.Some? then VText(s.value) else Null
  }

  function NullableTime(t: Option<Instant>): V {
    if t.Some? then VTime(t.value) else Null
  }

  function ColumnValue(c: Column, env: Env): V {
    match c
    case ArIsFollower => if env.rel.Some? then VBool(env.rel.value.isFollower) else Null
    case ArFollowedAt => if env.rel.Some? then NullableTime(env.rel.value.followedAt) else Null
    case ArIsFollowedBack => if env.rel.Some? then VBool(env.rel.value.isFollowedBack) else Null
    case ArLikedPosts => if env.rel.Some? then VNum(env.rel.value.likedPosts as real) else Null
    case ArRepostedPosts => if env.rel.Some? then VNum(env.rel.value.repostedPosts as real) else Null
    case ArRepliedPosts => if env.rel.Some? then VNum(env.rel.value.repliedPosts as real) else Null
    case BuDiscordId => VText(env.discordId)
    case BuDid => VText(env.user.did)
    case BuHandle => VText(env.user.handle)
    case BuHandleDomain => Nullable(env.user.handleDomain)
    case BuHasCustomDomain => VBool(env.user.hasCustomDomain)
    case BuPdsHost => Nullable(env.user.pdsHost)
    case BuDisplayName => Nullable(env.user.displayName)
    case BuDescription => Nullable(env.user.description)
    case BuHasAvatar => VBool(env.user.hasAvatar)
    case BuHasBanner => VBool(env.user.hasBanner)
    case BuPostsCount => VNum(env.user.postsCount as real)
    case BuFollowersCount => VNum(env.user.followersCount as real)
    case BuFollowsCount => VNum(env.user.followsCount as real)
    case BuCreatedAt => NullableTime(env.user.createdAt)
    case MListUri => if env.m.Some? && env.m.value.0.ListMembers? then VText(env.m.value.1) else Fault
    case MPackUri => if env.m.Some? && env.m.value.0.StarterPackMembers? then VText(env.m.value.1) else Fault
    case MMemberDid => if env.m.Some? then VText(env.m.value.2) else Fault
  }

  function NotV(v: V): V {
    match v
    case Null => Null
    case VBool(b) => VBool(!b)
    case _ => Fault
  }

  predicate IsTri(v: V) {
    v.Null? || v.VBool?
  }

  function AndV(a: V, b: V): V {
    if !IsTri(a) || !IsTri(b) then Fault
    else if a == VBool(false) || b == VBool(false) then VBool(false)
    else if a.Null? || b.Null? then Null
    else VBool(true)
  }

  function OrV(a: V, b: V): V {
    NotV(AndV(NotV(a), NotV(b)))
  }

  /** Text is compared for equality only: its order depends on the database's collation. */
  function CompareV(cmp: Comparison, a: V, b: V): V {
    match (a, b)
    case (Fault, _) => Fault
    case (_, Fault) => Fault
    case (Null, _) => Null
    case (_, Null) => Null
    case (VNum(x), VNum(y)) =>
      VBool(match cmp
            case CmpEq => x == y
            case CmpNe => x != y
            case CmpLt => x < y
            case CmpLe => x <= y
            case CmpGt => x > y
            case CmpGe => x >= y)
    case (VBool(x), VBool(y)) => if cmp.CmpEq? then VBool(x == y) else if cmp.CmpNe? then VBool(x != y) else Fault
    case (VText(x), VText(y)) => if cmp.CmpEq? then VBool(x == y) else if cmp.CmpNe? then VBool(x != y) else Fault
    case _ => Fault
  }

  /** `a op ANY (elems)` is an OR over the elements, `a op ALL (elems)` an AND. */
  function QuantifiedTexts(cmp: Comparison, all: bool, a: V, elems: seq<string>): V {
    if elems == [] then VBool(all)
    else
      var first := CompareV(cmp, a, VText(elems[0]));
      var rest := QuantifiedTexts(cmp, all, a, elems[1..]);
      if all then AndV(first, rest) else OrV(first, rest)
  }

  function QuantifiedV(cmp: Comparison, all: bool, a: V, arr: V): V {
    match arr
    case Null => Null
    case VTexts(elems) => QuantifiedTexts(cmp, all, a, elems)
    case _ => Fault
  }

  function IsDistinctV(a: V, b: V): V {
    if a.Fault? || b.Fault? then Fault
    else if a.Null? || b.Null? then VBool(a.Null? != b.Null?)
    else CompareV(CmpNe, a, b)
  }

  function LikeV(a: V, b: V): V {
    match (a, b)
    case (VText(s), VText(p)) => if Like.IsPattern(p) then VBool(Like.Like(s, p)) else Fault
    case (Null, Null) => Null
    case (Null, VText(_)) => Null
    case (VText(_), Null) => Null
    case _ => Fault
  }

  function MatchesV(host: Host, a: V, b: V): V {
    match (a, b)
    case (VText(s), VText(p)) => if host.compiles(p) then VBool(host.matches(p, s)) else Fault
    case (Null, Null) => Null
    case (Null, VText(_)) => Null
    case (VText(_), Null) => Null
    case _ => Fault
  }

  function SubV(a: V, b: V): V {
    match (a, b)
    case (VTime(x), VTime(y)) => VSpan(x - y)
    case (Null, Null) => Null
    case (Null, VTime(_)) => Null
    case (VTime(_), Null) => Null
    case _ => Fault
  }

  function DivV(a: V, b: V): V {
    match (a, b)
    case (VNum(x), VNum(y)) => if y == 0.0 then Fault else VNum(x / y)
    case (Null, Null) => Null
    case (Null, VNum(_)) => Null
    case (VNum(_), Null) => Null
    case _ => Fault
  }

  function EpochV(v: V): V {
    match v
    case Null => Null
    case VSpan(us) => VNum(us as real / 1_000_000.0)
    case _ => Fault
  }

  function FloorV(v: V): V {
    match v
    case Null => Null
    case VNum(r) => VNum(r.Floor as real)
    case _ => Fault
  }

  function LowerV(v: V): V {
    match v
    case Null => Null
    case VText(s) => VText(Strings.Lower(s))
    case _ => Fault
  }

  function CastV(v: V): V {
    match v
    case Null => Null
    case VTexts(_) => v
    case _ => Fault
  }

  function CallV(f: Function, v: V): V {
    match f
    case Floor => FloorV(v)
    case Epoch => EpochV(v)
    case Lower => LowerV(v)
  }

  function BinaryV(host: Host, op: BinOp, a: V, b: V): V {
    match op
    case OrOp => OrV(a, b)
    case AndOp => AndV(a, b)
    case DistinctOp => IsDistinctV(a, b)
    case Cmp(cmp) => CompareV(cmp, a, b)
    case LikeOp => LikeV(a, b)
    case MatchOp => MatchesV(host, a, b)
    case MinusOp => SubV(a, b)
    case DivOp => DivV(a, b)
  }

  function RowsOf(table: Table, db: Db): set<(string, string)> {
    match table
    case ListMembers => db.listMembers
    case StarterPackMembers => db.packMembers
  }

  function Eval(e: Expr, env: Env): V {
    match e
    case BoolLit(b) => VBool(b)
    case IntLit(n) => VNum(n as real)
    case Col(c) => ColumnValue(c, env)
    case Param(i) => if 1 <= i <= |env.params| then env.params[i - 1] else Fault
    case Now => VTime(env.now)
    case Paren(inner) => Eval(inner, env)
    case Call(f, inner) => CallV(f, Eval(inner, env))
    case Coalesce(inner, fallback) =>
      var v := Eval(inner, env);
      if v.Null? then Eval(fallback, env) else v
    case Exists(table, cond) =>
      var rows := RowsOf(table, env.db);
      if exists row :: row in rows && !IsTri(Eval(cond, env.(m := Some((table, row.0, row.1))))) then Fault
      else VBool(exists row :: row in rows && Eval(cond, env.(m := Some((table, row.0, row.1)))) == VBool(true))
    case CastTextArray(inner) => CastV(Eval(inner, env))
    case IsNotNull(inner) =>
      var v := Eval(inner, env);
      if v.Fault? then Fault else VBool(!v.Null?)
    case Quantified(cmp, all, l, r) => QuantifiedV(cmp, all, Eval(l, env), Eval(r, env))
    case Binary(op, l, r) => BinaryV(env.host, op, Eval(l, env), Eval(r, env))
  }

  /** A WHERE clause keeps a row only when it is TRUE; NULL drops the row like FALSE. */
  predicate Holds(e: Expr, env: Env) {
    Eval(e, env) == VBool(true)
  }

  // ---------- Static types ----------

  datatype Type = TBool | TNum | TText | TTexts | TTime | TSpan

  function ColumnType(c: Column): Type {
    match c
    case ArIsFollower | ArIsFollowedBack | BuHasCustomDomain | BuHasAvatar | BuHasBanner => TBool
    case ArFollowedAt | BuCreatedAt => TTime
    case ArLikedPosts | ArRepostedPosts | ArRepliedPosts | BuPostsCount | BuFollowersCount | BuFollowsCount => TNum
    case _ => TText
  }

  function CallType(f: Function, t: Type): Option<Type> {
    match (f, t)
    case (Floor, TNum) => Some(TNum)
    case (Epoch, TSpan) => Some(TNum)
    case (Lower, TText) => Some(TText)
    case _ => None
  }

  function BinaryType(op: BinOp, l: Type, r: Type): Option<Type> {
    if l != r then None
    else
      match op
      case OrOp | AndOp => if l.TBool? then Some(TBool) else None
      case DistinctOp | Cmp(_) => Some(TBool)
      case LikeOp | MatchOp => if l.TText? then Some(TBool) else None
      case MinusOp => if l.TTime? then Some(TSpan) else None
      case DivOp => if l.TNum? then Some(TNum) else None
  }

  /** The type of an expression under the given parameter types, when it has one. */
  function TypeOf(e: Expr, params: seq<Type>): Option<Type> {
    match e
    case BoolLit(_) => Some(TBool)
    case IntLit(_) => Some(TNum)
    case Col(c) => Some(ColumnType(c))
    case Param(i) => if 1 <= i <= |params| then Some(params[i - 1]) else None
    case Now => Some(TTime)
    case Paren(inner) => TypeOf(inner, params)
    case Call(f, inner) =>
      var t := TypeOf(inner, params);
      if t.Some? then CallType(f, t.value) else None
    case Coalesce(inner, fallback) =>
      var t := TypeOf(inner, params);
      if t == TypeOf(fallback, params) then t else None
    case Exists(_, cond) => if TypeOf(cond, params) == Some(TBool) then Some(TBool) else None
    case CastTextArray(inner) => if TypeOf(inner, params) == Some(TTexts) then Some(TTexts) else None
    case IsNotNull(inner) => if TypeOf(inner, params).Some? then Some(TBool) else None
    case Quantified(_, _, l, r) =>
      if TypeOf(l, params) == Some(TText) && TypeOf(r, params) == Some(TTexts) then Some(TBool) else None
    case Binary(op, l, r) =>
      var tl, tr := TypeOf(l, params), TypeOf(r, params);
      if tl.Some? && tr.Some? then BinaryType(op, tl.value, tr.value) else None
  }

  // ---------- Parameters ----------

  /** The placeholders of an expression, left to right. */
  function ParamsOf(e: Expr): seq<nat> {
    match e
    case BoolLit(_) | IntLit(_) | Col(_) | Now => []
    case Param(i) => [i]
    case Paren(inner) => ParamsOf(inner)
    case Call(_, inner) => ParamsOf(inner)
    case Coalesce(inner, fallback) => ParamsOf(inner) + ParamsOf(fallback)
    case Exists(_, cond) => ParamsOf(cond)
    case CastTextArray(inner) => ParamsOf(inner)
    case IsNotNull(inner) => ParamsOf(inner)
    case Quantified(_, _, l, r) => ParamsOf(l) + ParamsOf(r)
    case Binary(_, l, r) => ParamsOf(l) + ParamsOf(r)
  }

  predicate SameAt(indices: seq<nat>, p: seq<V>, q: seq<V>) {
    forall i :: i in indices ==> 1 <= i <= |p| && i <= |q| && p[i - 1] == q[i - 1]
  }

  lemma SameAtParts(left: seq<nat>, right: seq<nat>, p: seq<V>, q: seq<V>)
    requires SameAt(left + right, p, q)
    ensures SameAt(left, p, q) && SameAt(right, p, q)
  {
    forall i | i in left || i in right
      ensures i in left + right
    {
    }
  }

  /** An expression means the same under any parameters that agree where it looks. */
  lemma {:induction false} EvalReadsOnlyItsParams(e: Expr, env: Env, params: seq<V>)
    requires SameAt(ParamsOf(e), env.params, params)
    ensures Eval(e, env) == Eval(e, env.(params := params))
    decreases e
  {
    match e
    case BoolLit(_) =>
    case IntLit(_) =>
    case Col(_) =>
    case Now =>
    case Param(i) =>
      assert i in ParamsOf(e);
    case Paren(inner) =>
      assert ParamsOf(e) == ParamsOf(inner);
      EvalReadsOnlyItsParams(inner, env, params);
    case Call(_, inner) =>
      assert ParamsOf(e) == ParamsOf(inner);
      EvalReadsOnlyItsParams(inner, env, params);
    case CastTextArray(inner) =>
      assert ParamsOf(e) == ParamsOf(inner);
      EvalReadsOnlyItsParams(inner, env, params);
    case IsNotNull(inner) =>
      assert ParamsOf(e) == ParamsOf(inner);
      EvalReadsOnlyItsParams(inner, env, params);
    case Exists(table, cond) =>
      assert ParamsOf(e) == ParamsOf(cond);
      forall row | row in RowsOf(table, env.db)
        ensures Eval(cond, env.(m := Some((table, row.0, row.1))))
             == Eval(cond, env.(params := params).(m := Some((table, row.0, row.1))))
      {
        EvalReadsOnlyItsParams(cond, env.(m := Some((table, row.0, row.1))), params);
        assert env.(m := Some((table, row.0, row.1))).(params := params)
            == env.(params := params).(m := Some((table, row.0, row.1)));
      }
    case Coalesce(inner, fallback) =>
      SameAtParts(ParamsOf(inner), ParamsOf(fallback), env.params, params);
      EvalReadsOnlyItsParams(inner, env, params);
      EvalReadsOnlyItsParams(fallback, env, params);
    case Quantified(_, _, l, r) =>
      SameAtParts(ParamsOf(l), ParamsOf(r), env.params, params);
      EvalReadsOnlyItsParams(l, env, params);
      EvalReadsOnlyItsParams(r, env, params);
    case Binary(_, l, r) =>
      SameAtParts(ParamsOf(l), ParamsOf(r), env.params, params);
      EvalReadsOnlyItsParams(l, env, params);
      EvalReadsOnlyItsParams(r, env, params);
  }
}
