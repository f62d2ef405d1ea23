/** The rows a rule is decided from, and the flat view of one viewer that the evaluator reads. */
module Facts {
  import opened Wrappers

  type I32 = n: int | -0x8000_0000 <= n < 0x8000_0000

  /** Instants are microseconds since the epoch, the resolution of a timestamptz. */
  type Instant = int

  /** A row of `bsky_users`; its key, the Discord id, is kept outside. */
  datatype UserRow = UserRow(
    did: string,
    handle: string,
    handleDomain: Option<string>,
    hasCustomDomain: bool,
    pdsHost: Option<string>,
    displayName: Option<string>,
    description: Option<string>,
    hasAvatar: bool,
    hasBanner: bool,
    postsCount: I32,
    followersCount: I32,
    followsCount: I32,
    createdAt: Option<Instant>)

  /** A row of `account_relations`; its key, (account DID, viewer DID), is kept outside. */
  datatype RelationRow = RelationRow(
    isFollower: bool,
    followedAt: Option<Instant>,
    isFollowedBack: bool,
    likedPosts: I32,
    repostedPosts: I32,
    repliedPosts: I32)

  /** The column defaults: known viewer, no relation yet. */
  const BASELINE := RelationRow(false, None, false, 0, 0, 0)

  datatype Facts = Facts(
    isFollower: bool,
    followedAt: Option<Instant>,
    isFollowedBack: bool,
    likedPosts: I32,
    repostedPosts: I32,
    repliedPosts: I32,
    handle: string,
    handleDomain: Option<string>,
    hasCustomDomain: bool,
    displayName: Option<string>,
    description: Option<string>,
    hasAvatar: bool,
    hasBanner: bool,
    postsCount: I32,
    followersCount: I32,
    followsCount: I32,
    createdAt: Option<Instant>,
    pdsHost: Option<string>)
  {
    predicate IsMutual() {
      isFollower && isFollowedBack
    }
  }

  /** The LEFT JOIN row behind FACTS_SELECT: COALESCE supplies what a missing relation lacks. */
  function FactsOf(u: UserRow, rel: Option<RelationRow>): Facts {
    Facts(
      rel.Some? && rel.value.isFollower,
      if rel.Some? then rel.value.followedAt else None,
      rel.Some? && rel.value.isFollowedBack,
      if rel.Some? then rel.value.likedPosts else 0,
      if rel.Some? then rel.value.repostedPosts else 0,
      if rel.Some? then rel.value.repliedPosts else 0,
      u.handle, u.handleDomain, u.hasCustomDomain, u.displayName, u.description,
      u.hasAvatar, u.hasBanner, u.postsCount, u.followersCount, u.followsCount,
      u.createdAt, u.pdsHost)
  }

  /** The tables the rules read. Lists and packs map their URI to the owning account. */
  datatype Db = Db(
    users: map<string, UserRow>,
    relations: map<(string, string), RelationRow>,
    guildAccounts: set<(string, string)>,
    lists: map<string, string>,
    listMembers: set<(string, string)>,
    packs: map<string, string>,
    packMembers: set<(string, string)>)
  {
    function Relation(account: string, viewer: string): Option<RelationRow> {
      if (account, viewer) in relations then Some(relations[(account, viewer)]) else None
    }
  }

  /** The lists and starter packs one viewer is on. */
  datatype Memberships = Memberships(lists: set<string>, packs: set<string>)

  /** `load_memberships`: only what the bound account owns. */
  function LoadMemberships(db: Db, account: string, viewer: string): Memberships {
    Memberships(
      set m | m in db.listMembers && m.1 == viewer && m.0 in db.lists && db.lists[m.0] == account :: m.0,
      set m | m in db.packMembers && m.1 == viewer && m.0 in db.packs && db.packs[m.0] == account :: m.0)
  }
}
