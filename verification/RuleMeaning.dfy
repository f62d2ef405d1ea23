/** What a rule says of a viewer, read off the viewer's rows. The interpreter decides exactly that. */
module RuleMeaning {
  import opened Wrappers
  import opened Json
  import Strings
  import opened Rules
  import opened Facts
  import opened ConditionEval

  const DAY_IN_MICROSECONDS: int := 24 * 60 * 60 * 1_000_000

  /** d whole days lie between the two instants, counted toward zero; negative if t is still to come. */
  predicate WholeDays(now: Instant, t: Instant, d: int) {
    if t <= now then d * DAY_IN_MICROSECONDS <= now - t < (d + 1) * DAY_IN_MICROSECONDS
    else d <= 0 && -d * DAY_IN_MICROSECONDS <= t - now < (1 - d) * DAY_IN_MICROSECONDS
  }

  /** The number compares as the condition asks. */
  predicate IntSays(c: Condition, a: int)
    requires WellFormed(c) && c.target.Kind().IntKind?
  {
    var n: int := c.value.AsI64().value;
    match c.op
    case Eq => a == n
    case Neq => a < n || n < a
    case Gt => n < a
    case Gte => n < a || n == a
    case Lt => a < n
    case Lte => a < n || a == n
    case Between => !(a < n) && !(c.valueEnd.value.AsI64().value < a)
    case _ => false
  }

  /** Enough time has passed, in whole days, since an instant; never if there is none. */
  ghost predicate AgeSays(c: Condition, now: Instant, t: Option<Instant>)
    requires WellFormed(c) && c.target.Kind().IntKind?
  {
    t.Some? && exists d :: WholeDays(now, t.value, d) && IntSays(c, d)
  }

  /** The text compares as the condition asks; a missing one passes `neq` alone. */
  ghost predicate TextSays(host: Host, c: Condition, a: Option<string>)
    requires Runnable(host, c) && c.target.Kind().StringKind?
  {
    match c.op
    case Eq => a == Some(c.value.s)
    case Neq => a != Some(c.value.s)
    case Contains =>
      a.Some? && exists i :: 0 <= i <= |a.value| && Strings.Lower(c.value.s) <= Strings.Lower(a.value)[i..]
    case Regex => a.Some? && host.matches(c.value.s, a.value)
    case In => a.Some? && Str(a.value) in c.value.elems
    case NotIn => a.Some? && Str(a.value) !in c.value.elems
    case _ => false
  }

  /** What a condition says of a viewer: `rel` is the bound account's row about them, if there is one. */
  ghost predicate Says(host: Host, now: Instant, c: Condition, u: UserRow, rel: Option<RelationRow>, m: Memberships)
    requires Runnable(host, c)
  {
    match c.target
    case IsFollower => c.value == Bool(rel.Some? && rel.value.isFollower)
    case IsFollowedBack => c.value == Bool(rel.Some? && rel.value.isFollowedBack)
    case IsMutual => c.value == Bool(rel.Some? && rel.value.isFollower && rel.value.isFollowedBack)
    case HasCustomDomain => c.value == Bool(u.hasCustomDomain)
    case HasAvatar => c.value == Bool(u.hasAvatar)
    case HasBanner => c.value == Bool(u.hasBanner)
    case FollowAgeDays => AgeSays(c, now, if rel.Some? then rel.value.followedAt else None)
    case AccountAgeDays => AgeSays(c, now, u.createdAt)
    case LikedPostsCount => IntSays(c, if rel.Some? then rel.value.likedPosts else 0)
    case RepostedPostsCount => IntSays(c, if rel.Some? then rel.value.repostedPosts else 0)
    case RepliedPostsCount => IntSays(c, if rel.Some? then rel.value.repliedPosts else 0)
    case PostsCount => IntSays(c, u.postsCount)
    case FollowersCount => IntSays(c, u.followersCount)
    case FollowsCount => IntSays(c, u.followsCount)
    case IsOnList => c.value.s in m.lists
    case IsOnStarterPack => c.value.s in m.packs
    case Handle => TextSays(host, c, Some(u.handle))
    case HandleDomain => TextSays(host, c, u.handleDomain)
    case DisplayName => TextSays(host, c, u.displayName)
    case Description => TextSays(host, c, u.description)
    case PdsHost => TextSays(host, c, u.pdsHost)
  }

  lemma IntMatchSays(c: Condition, a: int)
    requires WellFormed(c) && c.target.Kind().IntKind?
    ensures IntMatch(c, Some(a)) <==> IntSays(c, a)
  {
  }

  lemma DaysAreWhole(now: Instant, t: Instant, d: int)
    ensures WholeDays(now, t, d) <==> DaysSince(now, Some(t)) == Some(d)
  {
    var span := if t <= now then now - t else t - now;
    assert span / DAY * DAY <= span < span / DAY * DAY + DAY;
  }

  lemma AgeMatchSays(c: Condition, now: Instant, t: Option<Instant>)
    requires WellFormed(c) && c.target.Kind().IntKind?
    ensures IntMatch(c, DaysSince(now, t)) <==> AgeSays(c, now, t)
  {
    if t.Some? {
      var d := DaysSince(now, t).value;
      IntMatchSays(c, d);
      hide IntMatch, IntSays, DaysSince, WholeDays;
      DaysAreWhole(now, t.value, d);
      forall e | WholeDays(now, t.value, e)
        ensures e == d
      {
        DaysAreWhole(now, t.value, e);
      }
    }
  }

  lemma TextMatchSays(host: Host, c: Condition, a: Option<string>)
    requires Runnable(host, c) && c.target.Kind().StringKind?
    ensures StringMatch(host, c, a) <==> TextSays(host, c, a)
  {
    if c.op.Contains? && a.Some? {
      Strings.ContainsIsOccurrence(Strings.Lower(a.value), Strings.Lower(c.value.s));
    }
  }

  /** The interpreter's verdict on a condition is what the condition says of the rows. */
  lemma VerdictIsSaid(host: Host, now: Instant, c: Condition, u: UserRow, rel: Option<RelationRow>, m: Memberships)
    requires Runnable(host, c)
    ensures EvaluateSingle(host, now, c, FactsOf(u, rel), m) <==> Says(host, now, c, u, rel, m)
  {
    hide IntMatch, IntSays, StringMatch, TextSays, AgeSays, DaysSince;
    var f := FactsOf(u, rel);
    match c.target
    case FollowAgeDays => AgeMatchSays(c, now, f.followedAt);
    case AccountAgeDays => AgeMatchSays(c, now, f.createdAt);
    case LikedPostsCount => IntMatchSays(c, f.likedPosts);
    case RepostedPostsCount => IntMatchSays(c, f.repostedPosts);
    case RepliedPostsCount => IntMatchSays(c, f.repliedPosts);
    case PostsCount => IntMatchSays(c, f.postsCount);
    case FollowersCount => IntMatchSays(c, f.followersCount);
    case FollowsCount => IntMatchSays(c, f.followsCount);
    case Handle => TextMatchSays(host, c, Some(f.handle));
    case HandleDomain => TextMatchSays(host, c, f.handleDomain);
    case DisplayName => TextMatchSays(host, c, f.displayName);
    case Description => TextMatchSays(host, c, f.description);
    case PdsHost => TextMatchSays(host, c, f.pdsHost);
    case _ =>
  }

  /** A rule accepts whom some group says everything of, a group without conditions saying nothing. */
  lemma RuleIsSaid(host: Host, now: Instant, tree: RuleTree, u: UserRow, rel: Option<RelationRow>, m: Memberships)
    requires RunnableTree(host, tree)
    ensures Evaluate(host, now, tree, FactsOf(u, rel), m)
       <==> tree.grantOnAnyRelation
            || exists g :: g in tree.groups && g != []
                           && forall c :: c in g ==> Runnable(host, c) && Says(host, now, c, u, rel, m)
  {
    hide EvaluateSingle, Says, Runnable;
    var f := FactsOf(u, rel);
    forall g | g in tree.groups
      ensures EvaluateGroup(host, now, g, f, m)
         <==> g != [] && forall c :: c in g ==> Runnable(host, c) && Says(host, now, c, u, rel, m)
    {
      forall c | c in g {
        VerdictIsSaid(host, now, c, u, rel, m);
      }
    }
  }

  /** The memberships that count are those in lists and packs the bound account owns. */
  lemma MembershipsAreOwned(db: Db, account: string, viewer: string, uri: string)
    ensures var m := LoadMemberships(db, account, viewer);
            && (uri in m.lists <==> (uri, viewer) in db.listMembers && uri in db.lists && db.lists[uri] == account)
            && (uri in m.packs <==> (uri, viewer) in db.packMembers && uri in db.packs && db.packs[uri] == account)
  {
    assert (uri, viewer) in db.listMembers ==> (uri, viewer).0 == uri;
    assert (uri, viewer) in db.packMembers ==> (uri, viewer).0 == uri;
  }
}
