/** The interpreter: one viewer, two-valued, missing data fails closed. */
module ConditionEval {
  import opened Wrappers
  import opened Json
  import Strings
  import opened Rules
  import opened Facts

  const DAY: int := 86_400_000_000

  /** Services outside the model: the regex engine and how a JSON number is written out. */
  datatype Host = Host(
    compiles: string -> bool,
    matches: (string, string) -> bool,
    numberText: Num -> string)

  /** A condition as the validator lets it through, its pattern accepted by the regex engine. */
  predicate Runnable(host: Host, c: Condition) {
    WellFormed(c) && (c.op.Regex? ==> host.compiles(c.value.s))
  }

  predicate RunnableTree(host: Host, tree: RuleTree) {
    forall g, c :: g in tree.groups && c in g ==> Runnable(host, c)
  }

  /** `num_days`: whole days, truncated toward zero. */
  function DaysSince(now: Instant, t: Option<Instant>): Option<int> {
    if t.None? then None
    else
      var span := now - t.value;
      Some(if span >= 0 then span / DAY else -(-span / DAY))
  }

  predicate BoolMatch(c: Condition, actual: bool) {
    c.op.Eq? && c.value.AsBool() == Some(actual)
  }

  predicate IntMatch(c: Condition, actual: Option<int>) {
    if actual.None? then false
    else
      var a := actual.value;
      var v := c.value.AsI64();
      match c.op
      case Eq => v.Some? && a == v.value
      case Neq => v.Some? && a != v.value
      case Gt => v.Some? && a > v.value
      case Gte => v.Some? && a >= v.value
      case Lt => v.Some? && a < v.value
      case Lte => v.Some? && a <= v.value
      case Between =>
        var hi := if c.valueEnd.Some? then c.valueEnd.value.AsI64() else None;
        v.Some? && hi.Some? && v.value <= a <= hi.value
      case _ => false
  }

  predicate ListContains(v: Value, needle: string) {
    v.Array? && Str(needle) in v.elems
  }

  predicate StringMatch(host: Host, c: Condition, actual: Option<string>) {
    if actual.None? then c.op.Neq?
    else
      var a := actual.value;
      var v := c.value.AsStr();
      match c.op
      case Eq => v.Some? && a == v.value
      case Neq => v.Some? && a != v.value
      case Contains => v.Some? && Strings.Contains(Strings.Lower(a), Strings.Lower(v.value))
      case Regex => v.Some? && host.compiles(v.value) && host.matches(v.value, a)
      case In => ListContains(c.value, a)
      case NotIn => !ListContains(c.value, a)
      case _ => false
  }

  predicate EvaluateSingle(host: Host, now: Instant, c: Condition, f: Facts, m: Memberships) {
    match c.target
    case IsFollower => BoolMatch(c, f.isFollower)
    case IsFollowedBack => BoolMatch(c, f.isFollowedBack)
    case IsMutual => BoolMatch(c, f.IsMutual())
    case HasCustomDomain => BoolMatch(c, f.hasCustomDomain)
    case HasAvatar => BoolMatch(c, f.hasAvatar)
    case HasBanner => BoolMatch(c, f.hasBanner)
    case FollowAgeDays => IntMatch(c, DaysSince(now, f.followedAt))
    case LikedPostsCount => IntMatch(c, Some(f.likedPosts))
    case RepostedPostsCount => IntMatch(c, Some(f.repostedPosts))
    case RepliedPostsCount => IntMatch(c, Some(f.repliedPosts))
    case AccountAgeDays => IntMatch(c, DaysSince(now, f.createdAt))
    case PostsCount => IntMatch(c, Some(f.postsCount))
    case FollowersCount => IntMatch(c, Some(f.followersCount))
    case FollowsCount => IntMatch(c, Some(f.followsCount))
    case IsOnList => c.value.AsStr().Some? && c.value.s in m.lists
    case IsOnStarterPack => c.value.AsStr().Some? && c.value.s in m.packs
    case Handle => StringMatch(host, c, Some(f.handle))
    case HandleDomain => StringMatch(host, c, f.handleDomain)
    case DisplayName => StringMatch(host, c, f.displayName)
    case Description => StringMatch(host, c, f.description)
    case PdsHost => StringMatch(host, c, f.pdsHost)
  }

  predicate EvaluateGroup(host: Host, now: Instant, g: Group, f: Facts, m: Memberships) {
    g != [] && forall c :: c in g ==> EvaluateSingle(host, now, c, f, m)
  }

  /** `evaluate_with_memberships`: some non-empty group holds entirely. */
  predicate Evaluate(host: Host, now: Instant, tree: RuleTree, f: Facts, m: Memberships) {
    tree.grantOnAnyRelation || exists g :: g in tree.groups && EvaluateGroup(host, now, g, f, m)
  }
}
