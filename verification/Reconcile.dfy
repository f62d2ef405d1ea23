/**
 * The refresh of an account's follow graph, and what `account_relations` says after any history of
 * refreshes, seedings and unlinks.
 */
module Reconcile {
  import opened Wrappers
  import opened Facts

  type Relations = map<(string, string), RelationRow>

  /** The refreshed row of one viewer, given the row before and the two sets that were fetched. */
  function RefreshedRow(row: RelationRow, follower: bool, followed: bool, now: Instant): RelationRow {
    row.(
      isFollower := follower,
      isFollowedBack := followed,
      followedAt := if follower && row.followedAt.None? then Some(now) else row.followedAt)
  }

  function RowOr(rels: Relations, key: (string, string)): RelationRow {
    if key in rels then rels[key] else BASELINE
  }

  /** Every viewer of the account, and nobody else, gets the flags of the fetched sets. */
  function Refreshed(
      rels: Relations, account: string, followers: set<string>, follows: set<string>, now: Instant): Relations
  {
    var fetched := set v | v in followers + follows :: (account, v);
    map key | key in rels.Keys + fetched ::
      if key.0 == account then RefreshedRow(RowOr(rels, key), key.1 in followers, key.1 in follows, now)
      else rels[key]
  }

  lemma RefreshedTells(
      rels: Relations, account: string, followers: set<string>, follows: set<string>, now: Instant)
    ensures var rels' := Refreshed(rels, account, followers, follows, now);
            && (forall key :: key in rels' <==>
                  key in rels || (key.0 == account && (key.1 in followers || key.1 in follows)))
            && (forall key :: key in rels' ==>
                  var was := if key in rels then rels[key] else RelationRow(false, None, false, 0, 0, 0);
                  rels'[key] ==
                  if key.0 != account then was
                  else RelationRow(key.1 in followers,
                                   if was.followedAt.None? && key.1 in followers then Some(now) else was.followedAt,
                                   key.1 in follows, was.likedPosts, was.repostedPosts, was.repliedPosts))
  {
    var fetched := set v | v in followers + follows :: (account, v);
    forall key: (string, string)
      ensures key in fetched <==> key.0 == account && (key.1 in followers || key.1 in follows)
    {
      if key.0 == account && (key.1 in followers || key.1 in follows) {
        assert key == (account, key.1);
      }
    }
  }

  class RelationTable {
    var relations: Relations

    constructor ()
      ensures relations == map[]
    {
      relations := map[];
    }

    /** The transaction of `refresh_account`: reset, insert missing rows, mark followers, mark follows. */
    method RefreshAccount(account: string, followers: set<string>, follows: set<string>, now: Instant)
      modifies this
      ensures relations == Refreshed(old(relations), account, followers, follows, now)
      ensures forall key :: key in relations <==>
        key in old(relations) || (key.0 == account && (key.1 in followers || key.1 in follows))
      ensures forall key :: key in relations ==>
        var was := if key in old(relations) then old(relations)[key] else RelationRow(false, None, false, 0, 0, 0);
        relations[key] ==
        if key.0 != account then was
        else RelationRow(key.1 in followers,
                         if was.followedAt.None? && key.1 in followers then Some(now) else was.followedAt,
                         key.1 in follows, was.likedPosts, was.repostedPosts, was.repliedPosts)
    {
      RefreshedTells(relations, account, followers, follows, now);
      ResetFlags(account);
      InsertMissing(account, followers + follows);
      MarkFetched(account, followers, follows, now);
    }

    /** The two UPDATEs, each left out when its set is empty. */
    method MarkFetched(account: string, followers: set<string>, follows: set<string>, now: Instant)
      requires forall key :: key in relations && key.0 == account ==>
        !relations[key].isFollower && !relations[key].isFollowedBack
      modifies this
      ensures relations.Keys == old(relations).Keys
      ensures forall key :: key in relations ==>
        relations[key] ==
        if key.0 == account then RefreshedRow(old(relations)[key], key.1 in followers, key.1 in follows, now)
        else old(relations)[key]
    {
      if followers != {} {
        MarkFollowers(account, followers, now);
      }
      if follows != {} {
        MarkFollows(account, follows);
      }
    }

    method ResetFlags(account: string)
      modifies this
      ensures relations.Keys == old(relations).Keys
      ensures forall key :: key in relations ==>
        relations[key] == if key.0 == account then old(relations)[key].(isFollower := false, isFollowedBack := false)
                          else old(relations)[key]
    {
      relations := map key | key in relations ::
        if key.0 == account then relations[key].(isFollower := false, isFollowedBack := false) else relations[key];
    }

    /** INSERT ... ON CONFLICT DO NOTHING, viewer by viewer. */
    method InsertMissing(account: string, viewers: set<string>)
      modifies this
      ensures relations.Keys == old(relations).Keys + set v | v in viewers :: (account, v)
      ensures forall key :: key in relations ==> relations[key] == RowOr(old(relations), key)
    {
      var todo := viewers;
      while todo != {}
        invariant todo <= viewers
        invariant relations.Keys == old(relations).Keys + set v | v in viewers - todo :: (account, v)
        invariant forall key :: key in relations ==> relations[key] == RowOr(old(relations), key)
      {
        var v :| v in todo;
        if (account, v) !in relations {
          relations := relations[(account, v) := BASELINE];
        }
        todo := todo - {v};
        assert viewers - todo == (viewers - (todo + {v})) + {v};
      }
      assert viewers - {} == viewers;
    }

    method MarkFollowers(account: string, followers: set<string>, now: Instant)
      modifies this
      ensures relations.Keys == old(relations).Keys
      ensures forall key :: key in relations ==>
        relations[key] ==
        if key.0 == account && key.1 in followers then
          old(relations)[key].(isFollower := true, followedAt := if old(relations)[key].followedAt.Some?
                                                                 then old(relations)[key].followedAt else Some(now))
        else old(relations)[key]
    {
      relations := map key | key in relations ::
        if key.0 == account && key.1 in followers then
          relations[key].(isFollower := true,
                          followedAt :=
                            if relations[key].followedAt.Some? then relations[key].followedAt else Some(now))
        else relations[key];
    }

    method MarkFollows(account: string, follows: set<string>)
      modifies this
      ensures relations.Keys == old(relations).Keys
      ensures forall key :: key in relations ==>
        relations[key] == if key.0 == account && key.1 in follows then old(relations)[key].(isFollowedBack := true)
                          else old(relations)[key]
    {
      relations := map key | key in relations ::
        if key.0 == account && key.1 in follows then relations[key].(isFollowedBack := true) else relations[key];
    }
  }

  // ---------- Histories ----------

  /** What changes the table: a refresh of some account, a seeded row, a viewer who unlinks. */
  datatype Change =
    | Refresh(account: string, followers: set<string>, follows: set<string>, at: Instant)
    | Seed(account: string, viewer: string)
    | Unlink(viewer: string)

  function Apply(rels: Relations, c: Change): Relations {
    match c
    case Refresh(account, followers, follows, at) => Refreshed(rels, account, followers, follows, at)
    case Seed(account, viewer) => if (account, viewer) in rels then rels else rels[(account, viewer) := BASELINE]
    case Unlink(viewer) => map key | key in rels && key.1 != viewer :: rels[key]
  }

  /** The table after a history, from an empty one. */
  function After(history: seq<Change>): Relations {
    if history == [] then map[] else Apply(After(history[..|history| - 1]), history[|history| - 1])
  }

  /** Whether the last refresh of the account, if the viewer did not unlink since, saw them as a follower. */
  predicate LastSeenFollowing(history: seq<Change>, account: string, viewer: string) {
    history != [] &&
    var c := history[|history| - 1];
    if c.Refresh? && c.account == account then viewer in c.followers
    else if c == Unlink(viewer) then false
    else LastSeenFollowing(history[..|history| - 1], account, viewer)
  }

  predicate LastSeenFollowed(history: seq<Change>, account: string, viewer: string) {
    history != [] &&
    var c := history[|history| - 1];
    if c.Refresh? && c.account == account then viewer in c.follows
    else if c == Unlink(viewer) then false
    else LastSeenFollowed(history[..|history| - 1], account, viewer)
  }

  /** The time of the first refresh since the viewer last unlinked that saw them as a follower. */
  function FirstFollow(history: seq<Change>, account: string, viewer: string): Option<Instant> {
    if history == [] then None
    else
      var c := history[|history| - 1];
      if c == Unlink(viewer) then None
      else
        var earlier := FirstFollow(history[..|history| - 1], account, viewer);
        if earlier.None? && c.Refresh? && c.account == account && viewer in c.followers then Some(c.at) else earlier
  }

  /**
   * After any history, the flags are those of the last refresh, and `followed_at` is the time of the
   * first refresh that saw the viewer as a follower: unfollowing and following again does not move it,
   * only unlinking clears it. A missing row reads like one without any relation.
   */
  lemma {:induction false} TableTellsHistory(history: seq<Change>, account: string, viewer: string)
    ensures var row := RowOr(After(history), (account, viewer));
            && row.isFollower == LastSeenFollowing(history, account, viewer)
            && row.isFollowedBack == LastSeenFollowed(history, account, viewer)
            && row.followedAt == FirstFollow(history, account, viewer)
  {
    if history != [] {
      var before, c := history[..|history| - 1], history[|history| - 1];
      TableTellsHistory(before, account, viewer);
      if c.Refresh? && c.account == account {
        RefreshOfOne(After(before), c, viewer);
      }
    }
  }

  lemma RefreshOfOne(rels: Relations, c: Change, viewer: string)
    requires c.Refresh?
    ensures RowOr(Apply(rels, c), (c.account, viewer))
         == RefreshedRow(RowOr(rels, (c.account, viewer)), viewer in c.followers, viewer in c.follows, c.at)
  {
    if viewer in c.followers + c.follows {
      assert (c.account, viewer) in Apply(rels, c);
    }
  }

  predicate NoUnlink(history: seq<Change>, viewer: string) {
    forall i :: 0 <= i < |history| ==> history[i] != Unlink(viewer)
  }

  /** Once set, `followed_at` stays for as long as the viewer stays linked. */
  lemma {:induction false} FollowedAtNeverMoves(
      history: seq<Change>, more: seq<Change>, account: string, viewer: string)
    requires NoUnlink(more, viewer)
    requires RowOr(After(history), (account, viewer)).followedAt.Some?
    ensures RowOr(After(history + more), (account, viewer)).followedAt
         == RowOr(After(history), (account, viewer)).followedAt
  {
    TableTellsHistory(history, account, viewer);
    TableTellsHistory(history + more, account, viewer);
    FirstFollowStays(history, more, account, viewer);
  }

  lemma {:induction false} FirstFollowStays(history: seq<Change>, more: seq<Change>, account: string, viewer: string)
    requires NoUnlink(more, viewer) && FirstFollow(history, account, viewer).Some?
    ensures FirstFollow(history + more, account, viewer) == FirstFollow(history, account, viewer)
  {
    if more == [] {
      assert history + more == history;
    } else {
      var before := more[..|more| - 1];
      FirstFollowStays(history, before, account, viewer);
      assert (history + more)[..|history + more| - 1] == history + before;
    }
  }
}
