/** Rule trees: what an admin can ask about a viewer. */
module Rules {
  import opened Wrappers
  import opened Json

  datatype TargetKind = BoolKind | IntKind | StringKind

  datatype Target =
    // the viewer's relation to the bound account
    | IsFollower
    | FollowAgeDays
    | IsFollowedBack
    | IsMutual
    | LikedPostsCount
    | RepostedPostsCount
    | RepliedPostsCount
    // membership of one of the bound account's lists or starter packs
    | IsOnList
    | IsOnStarterPack
    // the viewer's own account
    | AccountAgeDays
    | PostsCount
    | FollowersCount
    | FollowsCount
    | Handle
    | HandleDomain
    | HasCustomDomain
    | DisplayName
    | Description
    | HasAvatar
    | HasBanner
    | PdsHost
  {
    function Kind(): TargetKind {
      match this
      case IsFollower | IsFollowedBack | IsMutual | HasCustomDomain | HasAvatar | HasBanner => BoolKind
      case FollowAgeDays | LikedPostsCount | RepostedPostsCount | RepliedPostsCount
        | AccountAgeDays | PostsCount | FollowersCount | FollowsCount => IntKind
      case IsOnList | IsOnStarterPack | Handle | HandleDomain | DisplayName | Description | PdsHost => StringKind
    }

    predicate IsMembership() {
      IsOnList? || IsOnStarterPack?
    }

    function Key(): string {
      match this
      case IsFollower => "is_follower"
      case FollowAgeDays => "follow_age_days"
      case IsFollowedBack => "is_followed_back"
      case IsMutual => "is_mutual"
      case LikedPostsCount => "liked_posts_count"
      case RepostedPostsCount => "reposted_posts_count"
      case RepliedPostsCount => "replied_posts_count"
      case IsOnList => "is_on_list"
      case IsOnStarterPack => "is_on_starter_pack"
      case AccountAgeDays => "account_age_days"
      case PostsCount => "posts_count"
      case FollowersCount => "followers_count"
      case FollowsCount => "follows_count"
      case Handle => "handle"
      case HandleDomain => "handle_domain"
      case HasCustomDomain => "has_custom_domain"
      case DisplayName => "display_name"
      case Description => "description"
      case HasAvatar => "has_avatar"
      case HasBanner => "has_banner"
      case PdsHost => "pds_host"
    }
  }

  function TargetFromKey(key: string): Option<Target> {
    match key
    case "is_follower" => Some(IsFollower)
    case "follow_age_days" => Some(FollowAgeDays)
    case "is_followed_back" => Some(IsFollowedBack)
    case "is_mutual" => Some(IsMutual)
    case "liked_posts_count" => Some(LikedPostsCount)
    case "reposted_posts_count" => Some(RepostedPostsCount)
    case "replied_posts_count" => Some(RepliedPostsCount)
    case "is_on_list" => Some(IsOnList)
    case "is_on_starter_pack" => Some(IsOnStarterPack)
    case "account_age_days" => Some(AccountAgeDays)
    case "posts_count" => Some(PostsCount)
    case "followers_count" => Some(FollowersCount)
    case "follows_count" => Some(FollowsCount)
    case "handle" => Some(Handle)
    case "handle_domain" => Some(HandleDomain)
    case "has_custom_domain" => Some(HasCustomDomain)
    case "display_name" => Some(DisplayName)
    case "description" => Some(Description)
    case "has_avatar" => Some(HasAvatar)
    case "has_banner" => Some(HasBanner)
    case "pds_host" => Some(PdsHost)
    case _ => None
  }

  datatype Operator = Eq | Neq | Gt | Gte | Lt | Lte | Between | Contains | Regex | In | NotIn {

    predicate ValidFor(kind: TargetKind) {
      match kind
      case BoolKind => Eq?
      case IntKind => Eq? || Neq? || Gt? || Gte? || Lt? || Lte? || Between?
      case StringKind => Eq? || Neq? || Contains? || Regex? || In? || NotIn?
    }

    function Key(): string {
      match this
      case Eq => "eq"
      case Neq => "neq"
      case Gt => "gt"
      case Gte => "gte"
      case Lt => "lt"
      case Lte => "lte"
      case Between => "between"
      case Contains => "contains"
      case Regex => "regex"
      case In => "in"
      case NotIn => "not_in"
    }
  }

  function OperatorFromKey(key: string): Option<Operator> {
    match key
    case "eq" => Some(Eq)
    case "neq" => Some(Neq)
    case "gt" => Some(Gt)
    case "gte" => Some(Gte)
    case "lt" => Some(Lt)
    case "lte" => Some(Lte)
    case "between" => Some(Between)
    case "contains" => Some(Operator.Contains)
    case "regex" => Some(Regex)
    case "in" => Some(In)
    case "not_in" => Some(NotIn)
    case _ => None
  }

  lemma TargetOfKey(t: Target)
    ensures TargetFromKey(t.Key()) == Some(t)
  {
  }

  lemma KeyOfTarget(key: string)
    ensures TargetFromKey(key).Some? ==> TargetFromKey(key).value.Key() == key
  {
  }

  /** The two key tables are inverse to each other: each key names one target, each target one key. */
  lemma TargetKeysRoundTrip(t: Target, key: string)
    ensures TargetFromKey(key) == Some(t) <==> key == t.Key()
  {
    hide TargetFromKey;
    TargetOfKey(t);
    KeyOfTarget(key);
  }

  lemma OperatorKeysRoundTrip(op: Operator, key: string)
    ensures OperatorFromKey(key) == Some(op) <==> key == op.Key()
  {
    assert OperatorFromKey(op.Key()) == Some(op);
  }

  datatype Condition = Condition(target: Target, op: Operator, value: Value, valueEnd: Option<Value>)

  const MAX_GROUPS := 8
  const MAX_CONDITIONS_PER_GROUP := 12

  /** One AND-group. */
  type Group = seq<Condition>

  /** An OR of AND-groups, or everyone who linked an account. */
  datatype RuleTree = RuleTree(grantOnAnyRelation: bool, groups: seq<Group>)

  /** What a link starts with: nobody qualifies. */
  const EMPTY_TREE := RuleTree(false, [])

  predicate ValueFits(kind: TargetKind, op: Operator, v: Value) {
    match kind
    case BoolKind => v.Bool?
    case IntKind => v.AsI64().Some?
    case StringKind => if op.In? || op.NotIn? then v.Array? else v.Str?
  }

  /** What the back ends may rely on: the operator is legal, the values have the target's kind. */
  predicate WellFormed(c: Condition) {
    && c.op.ValidFor(c.target.Kind())
    && (c.target.IsMembership() ==> c.op.Eq? && c.value.Str? && c.value.s != "")
    && ValueFits(c.target.Kind(), c.op, c.value)
    && (c.valueEnd.Some? <==> c.op.Between?)
    && (c.valueEnd.Some? ==> ValueFits(c.target.Kind(), c.op, c.valueEnd.value))
  }

  predicate WellFormedTree(tree: RuleTree) {
    forall g, c :: g in tree.groups && c in g ==> WellFormed(c)
  }
}
