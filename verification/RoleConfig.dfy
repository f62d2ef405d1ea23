/**
 * Saving a role link's configuration: validation, a write under optimistic locking, and a second
 * statement that reads the row again to answer the request. Other requests run in between.
 */
module RoleConfig {
  import opened Wrappers
  import opened Rules
  import opened ConditionEval
  import RuleValidator
  import Strings

  /** `rule_tree_version` is a 32-bit column; bumping its greatest value is an error. */
  const MAX_VERSION: int := 0x7FFF_FFFF

  /** The row of one role link, while it exists. */
  datatype LinkRow = LinkRow(account: Option<string>, tree: RuleTree, version: int)

  datatype SaveError =
    | NotConnected
    | Invalid(why: RuleValidator.Refusal)
    | NoAccount
    | NotFound
    | StaleVersion
    | VersionOverflow
    | Vanished  // the row was deleted between the write and the second statement

  /** `connected`: the account named in the body is one of the guild's. */
  datatype SaveRequest = SaveRequest(expected: int, body: RuleValidator.Body, connected: bool)

  const REGISTERED := LinkRow(None, EMPTY_TREE, 1)

  predicate NamesOthersAccount(req: SaveRequest) {
    req.body.account.Some? && !req.connected
  }

  /** A rule with conditions but no account to check them against. */
  predicate LacksAccount(rule: RuleValidator.ParsedRule) {
    rule.account.None? && !rule.tree.grantOnAnyRelation && rule.tree.groups != []
  }

  /** Nothing is wrong with the request itself. */
  predicate Sound(host: Host, req: SaveRequest) {
    && !NamesOthersAccount(req)
    && RuleValidator.Acceptable(host, req.body)
    && !LacksAccount(RuleValidator.Accepted(host, req.body))
  }

  /** What is wrong with the request: the first check that fails. */
  predicate Blames(host: Host, req: SaveRequest, e: SaveError) {
    match e
    case NotConnected => NamesOthersAccount(req)
    case Invalid(why) => !NamesOthersAccount(req) && RuleValidator.Explains(host, req.body, why)
    case NoAccount =>
      && !NamesOthersAccount(req)
      && RuleValidator.Acceptable(host, req.body)
      && LacksAccount(RuleValidator.Accepted(host, req.body))
    case _ => false
  }

  /** The conditional UPDATE touches the row. */
  predicate Succeeds(host: Host, row: Option<LinkRow>, req: SaveRequest) {
    Sound(host, req) && row.Some? && row.value.version == req.expected < MAX_VERSION
  }

  /** The UPDATE fails: the bumped version does not fit its column. */
  predicate Overflows(host: Host, row: Option<LinkRow>, req: SaveRequest) {
    Sound(host, req) && row.Some? && row.value.version == req.expected == MAX_VERSION
  }

  function Saved(host: Host, req: SaveRequest): LinkRow
    requires Sound(host, req)
  {
    var rule := RuleValidator.Accepted(host, req.body);
    LinkRow(rule.account, rule.tree, req.expected + 1)
  }

  /** The row holds, at this version, the account and the rule the request validates to. */
  predicate RowHolds(host: Host, row: Option<LinkRow>, req: SaveRequest, version: int) {
    && RuleValidator.Acceptable(host, req.body)
    && var rule := RuleValidator.Accepted(host, req.body);
       row == Some(LinkRow(rule.account, rule.tree, version))
  }

  /**
   * A request is sound exactly if the account it names is the guild's, its rule can be stored, and the
   * rule has an account to check against or grants to everyone linked.
   */
  lemma SoundIff(host: Host, req: SaveRequest)
    ensures Sound(host, req) <==>
              && (req.body.account.Some? ==> req.connected)
              && RuleValidator.Acceptable(host, req.body)
              && (req.body.grantOnAnyRelation
                  || (req.body.account.Some? && Strings.Trim(req.body.account.value) != ""))
  {
    if RuleValidator.Acceptable(host, req.body) {
      RuleValidator.AcceptedIsStored(host, req.body);
    }
    hide RuleValidator.Accepted, RuleValidator.StoredGroup, Strings.Trim;
  }

  function Unbound(row: LinkRow, account: string): LinkRow {
    if row.account == Some(account) then row.(account := None) else row
  }

  // ---------- Interleavings ----------

  /**
   * The row of one link, the saves whose UPDATE has run but which are not answered yet (and whether it
   * touched the row), and what each finished save was answered. Saves are numbered.
   */
  datatype State = State(row: Option<LinkRow>, open: map<nat, bool>, answers: map<nat, Result<int, SaveError>>)

  const INITIAL := State(None, map[], map[])

  /** The statements that touch or read the row. */
  datatype Event =
    | Update(save: nat, req: SaveRequest)  // the conditional UPDATE of a request that passed its checks
    | ReadBack(save: nat)                  // the second statement of that save, and its answer
    | Register
    | Disconnect(account: string)
    | Delete

  predicate Enabled(host: Host, s: State, e: Event) {
    match e
    case Update(save, req) => Sound(host, req) && save !in s.open && save !in s.answers
    case ReadBack(save) => save in s.open
    case _ => true
  }

  /** After a touched row its version is read back; after zero rows, whether there is a row at all. */
  function Reply(row: Option<LinkRow>, touched: bool): Result<int, SaveError> {
    if touched then (if row.Some? then Ok(row.value.version) else Err(Vanished))
    else Err(if row.Some? then StaleVersion else NotFound)
  }

  function Apply(host: Host, s: State, e: Event): State {
    match e
    case Update(save, req) =>
      if Succeeds(host, s.row, req) then s.(row := Some(Saved(host, req)), open := s.open[save := true])
      else if Overflows(host, s.row, req) then s.(answers := s.answers[save := Err(VersionOverflow)])
      else s.(open := s.open[save := false])
    case ReadBack(save) =>
      if save in s.open then
        s.(open := s.open - {save}, answers := s.answers[save := Reply(s.row, s.open[save])])
      else s
    case Register => s.(row := if s.row.None? then Some(REGISTERED) else s.row)
    case Disconnect(account) => s.(row := if s.row.Some? then Some(Unbound(s.row.value, account)) else None)
    case Delete => s.(row := None)
  }

  function RunFrom(host: Host, s: State, es: seq<Event>): State {
    if es == [] then s else Apply(host, RunFrom(host, s, es[..|es| - 1]), es[|es| - 1])
  }

  function After(host: Host, es: seq<Event>): State {
    RunFrom(host, INITIAL, es)
  }

  predicate Valid(host: Host, s: State, es: seq<Event>) {
    es != [] ==> Valid(host, s, es[..|es| - 1]) && Enabled(host, RunFrom(host, s, es[..|es| - 1]), es[|es| - 1])
  }

  predicate Wins(host: Host, s: State, e: Event) {
    e.Update? && Succeeds(host, s.row, e.req)
  }

  /** An accepted save: its number and what it asked for. */
  datatype Win = Win(save: nat, req: SaveRequest)

  /** The accepted saves since the link was last registered, in order. */
  function WinningSaves(host: Host, es: seq<Event>): (saves: seq<Win>)
    ensures forall k :: 0 <= k < |saves| ==> Sound(host, saves[k].req)
  {
    if es == [] then []
    else
      var before, e := es[..|es| - 1], es[|es| - 1];
      if e.Delete? then []
      else WinningSaves(host, before) + (if Wins(host, After(host, before), e) then [Win(e.save, e.req)] else [])
  }

  predicate Lives(es: seq<Event>) {
    forall e :: e in es ==> !e.Delete?
  }

  /** The stored row, in terms of the accepted saves. */
  predicate RowTells(host: Host, row: Option<LinkRow>, saves: seq<Win>)
    requires forall k :: 0 <= k < |saves| ==> Sound(host, saves[k].req)
  {
    && (row.None? ==> saves == [])
    && (forall k :: 0 <= k < |saves| ==> saves[k].req.expected == k + 1)
    && (row.Some? ==>
          && row.value.version == |saves| + 1 <= MAX_VERSION
          && (saves == [] ==> row.value == REGISTERED)
          && (saves != [] ==>
                var last := saves[|saves| - 1].req;
                && RuleValidator.Acceptable(host, last.body)
                && var rule := RuleValidator.Accepted(host, last.body);
                   row.value.tree == rule.tree && row.value.account in {rule.account, None}))
  }

  /**
   * No save is lost: over any interleaving, the k-th save accepted since the registration is the one
   * that expected version k, and the stored tree is what the last one validated to. The account is that
   * save's too, unless it was disconnected since.
   */
  lemma {:induction false} NoLostSaves(host: Host, es: seq<Event>)
    ensures RowTells(host, After(host, es).row, WinningSaves(host, es))
  {
    hide RuleValidator.Accepted, RuleValidator.Acceptable, NamesOthersAccount, LacksAccount, Reply;
    if es != [] {
      NoLostSaves(host, es[..|es| - 1]);
    }
    SavedVersion(host);
  }

  /** The account was disconnected after the last accepted save. */
  predicate DisconnectedSince(host: Host, es: seq<Event>, account: string) {
    es != [] &&
    var before, e := es[..|es| - 1], es[|es| - 1];
    if e.Delete? || Wins(host, After(host, before), e) then false
    else e == Disconnect(account) || DisconnectedSince(host, before, account)
  }

  /**
   * What is stored is the last accepted save's rule, group by group and condition by condition as it was
   * sent, and its account, unless that very account was disconnected since.
   */
  lemma {:induction false} LastRuleIsStored(host: Host, es: seq<Event>)
    requires After(host, es).row.Some? && WinningSaves(host, es) != []
    ensures var row := After(host, es).row.value;
            var last := WinningSaves(host, es)[|WinningSaves(host, es)| - 1].req;
            && RuleValidator.Acceptable(host, last.body)
            && var rule := RuleValidator.Accepted(host, last.body);
               && RuleValidator.StoredRule(host, last.body, rule)
               && row.tree == rule.tree
               && row.account == if rule.account.Some? && DisconnectedSince(host, es, rule.account.value) then None
                                 else rule.account
  {
    hide RuleValidator.Accepted, RuleValidator.Acceptable, RuleValidator.StoredRule, NamesOthersAccount, LacksAccount;
    hide Reply;
    var before, e := es[..|es| - 1], es[|es| - 1];
    var last := WinningSaves(host, es)[|WinningSaves(host, es)| - 1].req;
    NoLostSaves(host, before);
    if !Wins(host, After(host, before), e) {
      LastRuleIsStored(host, before);
    } else {
      assert last == e.req;
    }
    RuleValidator.AcceptedIsStored(host, last.body);
  }

  lemma SavedVersion(host: Host)
    ensures forall req :: Sound(host, req) ==> Saved(host, req).version == req.expected + 1
  {
  }

  lemma SavedHolds(host: Host)
    ensures forall req :: Sound(host, req) ==> RowHolds(host, Some(Saved(host, req)), req, req.expected + 1)
  {
    hide RuleValidator.Accepted, RuleValidator.Acceptable;
  }

  lemma OneWinnerPerVersion(host: Host, es: seq<Event>, i: nat, j: nat)
    requires i < |WinningSaves(host, es)| && j < |WinningSaves(host, es)|
    requires WinningSaves(host, es)[i].req.expected == WinningSaves(host, es)[j].req.expected
    ensures i == j
  {
    NoLostSaves(host, es);
  }

  /** Until the link is deleted, accepted saves only accumulate. */
  lemma {:induction false} SavesGrow(host: Host, es: seq<Event>, more: seq<Event>)
    requires Lives(more)
    ensures WinningSaves(host, es) <= WinningSaves(host, es + more)
    ensures After(host, es).row.Some? ==> After(host, es + more).row.Some?
  {
    if more == [] {
      assert es + more == es;
    } else {
      hide Sound, Saved, Succeeds;
      var before := more[..|more| - 1];
      SavesGrow(host, es, before);
      assert (es + more)[..|es + more| - 1] == es + before;
    }
  }

  /** An editor that loaded a version cannot overwrite a save accepted since. */
  lemma StaleEditorLoses(host: Host, es: seq<Event>, more: seq<Event>, save: nat, req: SaveRequest)
    requires After(host, es).row.Some? && req.expected == After(host, es).row.value.version
    requires Lives(more) && WinningSaves(host, es + more) != WinningSaves(host, es)
    ensures !Wins(host, After(host, es + more), Update(save, req))
  {
    hide Sound, Saved;
    NoLostSaves(host, es);
    NoLostSaves(host, es + more);
    SavesGrow(host, es, more);
  }

  // ---------- The answer a save gets ----------

  lemma RunSnoc(host: Host, s: State, es: seq<Event>, e: Event)
    ensures RunFrom(host, s, es + [e]) == Apply(host, RunFrom(host, s, es), e)
    ensures Valid(host, s, es + [e]) <==> Valid(host, s, es) && Enabled(host, RunFrom(host, s, es), e)
    ensures s == INITIAL && !e.Delete? ==>
      WinningSaves(host, es + [e]) ==
      WinningSaves(host, es) + (if Wins(host, After(host, es), e) then [Win(e.save, e.req)] else [])
  {
    assert (es + [e])[..|es|] == es;
  }

  /** Until its second statement runs, a save remembers what its UPDATE did. */
  lemma {:induction false} OpenUntilReadBack(host: Host, s: State, es: seq<Event>, save: nat)
    requires Valid(host, s, es) && save in s.open && ReadBack(save) !in es
    ensures save in RunFrom(host, s, es).open && RunFrom(host, s, es).open[save] == s.open[save]
  {
    if es != [] {
      hide Sound, Saved, Succeeds, Overflows;
      OpenUntilReadBack(host, s, es[..|es| - 1], save);
    }
  }

  lemma NothingRan(host: Host, s: State)
    ensures RunFrom(host, s, []) == s && Valid(host, s, []) && WinningSaves(host, []) == []
  {
  }

  lemma {:induction false} RunConcat(host: Host, es: seq<Event>, more: seq<Event>)
    ensures After(host, es + more) == RunFrom(host, After(host, es), more)
    ensures Valid(host, INITIAL, es + more) <==> Valid(host, INITIAL, es) && Valid(host, After(host, es), more)
  {
    hide Apply, Enabled, RunFrom, Valid, WinningSaves;
    if more == [] {
      assert es + more == es;
      NothingRan(host, After(host, es));
    } else {
      var before, e := more[..|more| - 1], more[|more| - 1];
      RunConcat(host, es, before);
      RunSnoc(host, INITIAL, es + before, e);
      RunSnoc(host, After(host, es), before, e);
      assert more == before + [e] && es + more == es + before + [e];
    }
  }

  // ---------- Numbers are used once ----------

  predicate Used(s: State, save: nat) {
    save in s.open || save in s.answers
  }

  lemma {:induction false} UsedStaysUsed(host: Host, s: State, es: seq<Event>, save: nat)
    requires Valid(host, s, es) && Used(s, save)
    ensures Used(RunFrom(host, s, es), save)
  {
    if es != [] {
      hide Sound, Saved, Succeeds, Overflows;
      UsedStaysUsed(host, s, es[..|es| - 1], save);
    }
  }

  /** A save made before a deletion is never again among the accepted ones. */
  lemma {:induction false} DeletedForGood(host: Host, es: seq<Event>, more: seq<Event>, save: nat)
    requires Valid(host, INITIAL, es + more) && Used(After(host, es), save) && !Lives(more)
    ensures forall w :: w in WinningSaves(host, es + more) ==> w.save != save
  {
    hide Apply, Sound, Used, RunFrom, WinningSaves, Valid;
    var before, e := more[..|more| - 1], more[|more| - 1];
    assert more == before + [e] && es + more == es + before + [e];
    RunSnoc(host, INITIAL, es + before, e);
    if e.Delete? {
      DeletedNow(host, es + before);
    } else {
      assert !Lives(before);
      DeletedForGood(host, es, before, save);
      RunConcat(host, es, before);
      UsedStaysUsed(host, After(host, es), before, save);
      FreshNumber(host, After(host, es + before), e, save);
    }
  }

  lemma DeletedNow(host: Host, es: seq<Event>)
    ensures WinningSaves(host, es + [Delete]) == []
  {
  }

  lemma FreshNumber(host: Host, s: State, e: Event, save: nat)
    requires Enabled(host, s, e) && Used(s, save)
    ensures e.Update? ==> e.save != save
  {
  }

  /** An accepted save, the statements that ran before its second one, and its answer. */
  function SaveRun(es: seq<Event>, save: nat, req: SaveRequest, meanwhile: seq<Event>): seq<Event> {
    es + [Update(save, req)] + meanwhile + [ReadBack(save)]
  }

  predicate IsAcceptedSave(host: Host, es: seq<Event>, save: nat, req: SaveRequest, meanwhile: seq<Event>) {
    && Valid(host, INITIAL, SaveRun(es, save, req, meanwhile))
    && Wins(host, After(host, es), Update(save, req))
    && ReadBack(save) !in meanwhile
  }

  lemma UpdateTouches(host: Host, s: State, save: nat, req: SaveRequest)
    requires Succeeds(host, s.row, req)
    ensures var s' := Apply(host, s, Update(save, req)); s'.row.Some? && save in s'.open && s'.open[save]
  {
  }

  /** The row an UPDATE leaves. */
  lemma UpdateTells(host: Host, s: State, save: nat, req: SaveRequest)
    ensures Sound(host, req) ==>
      var written := Apply(host, s, Update(save, req)).row;
      if s.row.Some? && s.row.value.version == req.expected < MAX_VERSION
      then RowHolds(host, written, req, req.expected + 1) else written == s.row
  {
    SavedHolds(host);
    hide Saved, RowHolds;
  }

  lemma UpdateOpens(host: Host, s: State, save: nat, req: SaveRequest)
    requires !Overflows(host, s.row, req)
    ensures var s' := Apply(host, s, Update(save, req)); save in s'.open && s'.open[save] == Succeeds(host, s.row, req)
  {
  }

  lemma ReadBackAnswers(host: Host, s: State, save: nat)
    requires save in s.open && s.open[save]
    ensures var s' := Apply(host, s, ReadBack(save));
            s'.row == s.row && save in s'.answers && s'.answers[save] == Reply(s.row, true)
  {
  }

  /** What an accepted UPDATE leaves behind. */
  lemma WrittenIsLast(host: Host, es: seq<Event>, save: nat, req: SaveRequest)
    requires Wins(host, After(host, es), Update(save, req))
    ensures var written := es + [Update(save, req)];
            && WinningSaves(host, written) == WinningSaves(host, es) + [Win(save, req)]
            && |WinningSaves(host, written)| == req.expected
            && After(host, written).row.Some?
            && save in After(host, written).open && After(host, written).open[save]
  {
    hide Sound, Saved, Valid, WinningSaves, RunFrom, Apply;
    RunSnoc(host, INITIAL, es, Update(save, req));
    UpdateTouches(host, After(host, es), save, req);
    NoLostSaves(host, es);
  }

  /** Whatever ran in between, the accepted saves end with this one exactly if there was no other and no deletion. */
  lemma StillLastIff(host: Host, es: seq<Event>, save: nat, req: SaveRequest, between: seq<Event>)
    requires Valid(host, INITIAL, es + [Update(save, req)] + between)
    requires Wins(host, After(host, es), Update(save, req))
    ensures var all := WinningSaves(host, es + [Update(save, req)] + between);
            && (all == WinningSaves(host, es) + [Win(save, req)] <==> Lives(between) && |all| == req.expected)
            && (Lives(between) ==> After(host, es + [Update(save, req)] + between).row.Some?)
  {
    hide Sound, Wins, RunFrom, Valid, WinningSaves, Used, Lives;
    var written := es + [Update(save, req)];
    WrittenIsLast(host, es, save, req);
    var mine, all := WinningSaves(host, written), WinningSaves(host, written + between);
    if Lives(between) {
      SavesGrow(host, written, between);
    } else {
      assert Used(After(host, written), save) by { OpenIsUsed(After(host, written), save); }
      DeletedForGood(host, written, between, save);
      assert mine[|mine| - 1] == Win(save, req) && mine[|mine| - 1] in mine;
    }
  }

  lemma OpenIsUsed(s: State, save: nat)
    requires save in s.open
    ensures Used(s, save)
  {
  }

  /** The answer counts the saves accepted since the registration, as of the statement that reads back. */
  lemma AnswerCounts(host: Host, es: seq<Event>, save: nat, req: SaveRequest, meanwhile: seq<Event>)
    requires IsAcceptedSave(host, es, save, req, meanwhile)
    ensures var written := es + [Update(save, req)];
            var s := After(host, SaveRun(es, save, req, meanwhile));
            var all := WinningSaves(host, written + meanwhile);
            && WinningSaves(host, SaveRun(es, save, req, meanwhile)) == all
            && save in s.answers
            && s.answers[save] == (if s.row.Some? then Ok(|all| + 1) else Err(Vanished))
            && s.row == After(host, written + meanwhile).row
            && Valid(host, INITIAL, written + meanwhile)
  {
    hide Sound, Saved, Enabled, RunFrom, Valid, WinningSaves, Apply;
    var written := es + [Update(save, req)];
    var read := written + meanwhile;
    RunSnoc(host, INITIAL, read, ReadBack(save));
    RunConcat(host, written, meanwhile);
    WrittenIsLast(host, es, save, req);
    OpenUntilReadBack(host, After(host, written), meanwhile, save);
    ReadBackAnswers(host, After(host, read), save);
    NoLostSaves(host, read);
  }

  /**
   * An accepted save is answered its own version exactly when, as it reads back, there is a row and as
   * many saves were accepted since its registration as up to this one. No other save and no deletion
   * came in between exactly when, besides, the registration is still the same.
   */
  lemma AnsweredOwnVersionIff(host: Host, es: seq<Event>, save: nat, req: SaveRequest, meanwhile: seq<Event>)
    requires IsAcceptedSave(host, es, save, req, meanwhile)
    ensures var run := SaveRun(es, save, req, meanwhile);
            && save in After(host, run).answers
            && (After(host, run).answers[save] == Ok(req.expected + 1)
                <==> After(host, run).row.Some? && |WinningSaves(host, run)| == req.expected)
            && (After(host, run).answers[save] == Ok(req.expected + 1) && Lives(meanwhile)
                <==> WinningSaves(host, run) == WinningSaves(host, es) + [Win(save, req)])
  {
    hide SaveRun, After, WinningSaves, Lives, Valid;
    AnswerCounts(host, es, save, req, meanwhile);
    StillLastIff(host, es, save, req, meanwhile);
  }

  /**
   * An editor whose save was accepted, and who later saves again, whatever version it took over: the
   * second save replaces the first and nobody else's exactly when it expects the first one's version
   * and the link was not deleted in between.
   */
  lemma AdoptedVersionIsSafeIff(
      host: Host, es: seq<Event>, save: nat, req: SaveRequest, between: seq<Event>, next: nat, again: SaveRequest)
    requires Valid(host, INITIAL, es + [Update(save, req)] + between)
    requires Wins(host, After(host, es), Update(save, req))
    requires Wins(host, After(host, es + [Update(save, req)] + between), Update(next, again))
    ensures WinningSaves(host, es + [Update(save, req)] + between) == WinningSaves(host, es) + [Win(save, req)]
       <==> Lives(between) && again.expected == req.expected + 1
    ensures Lives(between) && again.expected == req.expected + 1 ==>
      var replaced := After(host, es + [Update(save, req)] + between).row;
      replaced.Some? && Sound(host, req) && replaced.value.tree == RuleValidator.Accepted(host, req.body).tree
  {
    hide Saved, Sound, Lives, WinningSaves, Valid, RunFrom;
    var all := WinningSaves(host, es + [Update(save, req)] + between);
    StillLastIff(host, es, save, req, between);
    NoLostSaves(host, es + [Update(save, req)] + between);
    if Lives(between) && again.expected == req.expected + 1 {
      assert all[|all| - 1] == Win(save, req);
    }
  }

  /**
   * An editor that loaded a version and saves it later: it replaces nothing but what it loaded exactly
   * when the link was not deleted in between, or nothing had been saved.
   */
  lemma LoadedVersionIsSafeIff(host: Host, es: seq<Event>, between: seq<Event>, save: nat, req: SaveRequest)
    requires Valid(host, INITIAL, es + between)
    requires After(host, es).row.Some? && req.expected == After(host, es).row.value.version
    requires Wins(host, After(host, es + between), Update(save, req))
    ensures WinningSaves(host, es + between) == WinningSaves(host, es)
       <==> Lives(between) || WinningSaves(host, es) == []
  {
    hide Saved, Sound, Lives, WinningSaves, Valid, RunFrom, Used;
    var loaded, all := WinningSaves(host, es), WinningSaves(host, es + between);
    NoLostSaves(host, es);
    NoLostSaves(host, es + between);
    if Lives(between) {
      SavesGrow(host, es, between);
    } else if loaded != [] {
      var last := loaded[|loaded| - 1];
      RunConcat(host, es, between);
      WinnersAreUsed(host, es);
      assert last in loaded;
      DeletedForGood(host, es, between, last.save);
    }
  }

  lemma {:induction false} WinnersAreUsed(host: Host, es: seq<Event>)
    requires Valid(host, INITIAL, es)
    ensures forall w :: w in WinningSaves(host, es) ==> Used(After(host, es), w.save)
  {
    if es != [] {
      hide Sound, Saved, Apply, Used, Enabled;
      var before, e := es[..|es| - 1], es[|es| - 1];
      WinnersAreUsed(host, before);
      forall w | w in WinningSaves(host, es)
        ensures Used(After(host, es), w.save)
      {
        if w in WinningSaves(host, before) {
          UsedStep(host, After(host, before), e, w.save);
        } else {
          UpdateTouches(host, After(host, before), e.save, e.req);
          OpenIsUsed(After(host, es), e.save);
        }
      }
    }
  }

  lemma UsedStep(host: Host, s: State, e: Event, save: nat)
    requires Used(s, save)
    ensures Used(Apply(host, s, e), save)
  {
    hide Sound;
  }

  /**
   * So two tabs can silently clobber each other: the first saves, the second loads that and saves, and
   * only then the first reads back. It is answered the second save's version, and with it overwrites
   * the second save, which it never saw.
   */
  lemma AnswerClobbers(host: Host, first: SaveRequest, second: SaveRequest, again: SaveRequest)
    requires Sound(host, first) && Sound(host, second) && Sound(host, again)
    requires first.expected == 1 && second.expected == 2 && again.expected == 3
    ensures var run := [Register] + [Update(1, first)] + [Update(2, second)] + [ReadBack(1)];
            && Valid(host, INITIAL, run)
            && After(host, run).answers == map[1 := Ok(3)]
            && RowHolds(host, After(host, run).row, second, 3)
            && Wins(host, After(host, run), Update(3, again))
            && WinningSaves(host, run) == [Win(1, first), Win(2, second)]
  {
    hide Sound, Saved, RunFrom, Valid, WinningSaves, RowHolds;
    SavedVersion(host);
    SavedHolds(host);
    RunSnoc(host, INITIAL, [], Register);
    NothingRan(host, INITIAL);
    assert [] + [Register] == [Register];
    var e1: seq<Event> := [Register];
    RunSnoc(host, INITIAL, e1, Update(1, first));
    RunSnoc(host, INITIAL, e1 + [Update(1, first)], Update(2, second));
    RunSnoc(host, INITIAL, e1 + [Update(1, first)] + [Update(2, second)], ReadBack(1));
    assert [] + [Win(1, first)] + [Win(2, second)] == [Win(1, first), Win(2, second)];
  }

  /**
   * And so they can across a deletion: the first tab saves and is answered its own version, 2; the link is
   * deleted and registered again, and a second tab saves to version 2. The first tab's next save, and
   * that of any tab that loaded version 2 before, overwrites the second tab's.
   */
  lemma DeletionClobbers(host: Host, first: SaveRequest, second: SaveRequest, again: SaveRequest)
    requires Sound(host, first) && Sound(host, second) && Sound(host, again)
    requires first.expected == 1 && second.expected == 1 && again.expected == 2
    ensures var before := [Register] + [Update(1, first)] + [ReadBack(1)];
            var run := before + [Delete] + [Register] + [Update(2, second)] + [ReadBack(2)];
            && Valid(host, INITIAL, run)
            && RowHolds(host, After(host, before).row, first, 2)
            && After(host, run).answers == map[1 := Ok(2), 2 := Ok(2)]
            && Wins(host, After(host, run), Update(3, again))
            && WinningSaves(host, run) == [Win(2, second)]
  {
    hide Sound, Saved, RunFrom, Valid, WinningSaves, RowHolds;
    SavedVersion(host);
    SavedHolds(host);
    NothingRan(host, INITIAL);
    RunSnoc(host, INITIAL, [], Register);
    assert [] + [Register] == [Register];
    var e1: seq<Event> := [Register];
    RunSnoc(host, INITIAL, e1, Update(1, first));
    var e2 := e1 + [Update(1, first)];
    RunSnoc(host, INITIAL, e2, ReadBack(1));
    var e3 := e2 + [ReadBack(1)];
    assert After(host, e3) == State(Some(Saved(host, first)), map[], map[1 := Ok(2)]);
    RunSnoc(host, INITIAL, e3, Delete);
    DeletedNow(host, e3);
    var e4 := e3 + [Delete];
    RunSnoc(host, INITIAL, e4, Register);
    var e5 := e4 + [Register];
    assert After(host, e5) == State(Some(REGISTERED), map[], map[1 := Ok(2)]);
    RunSnoc(host, INITIAL, e5, Update(2, second));
    RunSnoc(host, INITIAL, e5 + [Update(2, second)], ReadBack(2));
    assert [] + [Win(2, second)] == [Win(2, second)];
  }

  /** Whatever was saved, the stored tree is one both back ends can run. */
  lemma StoredTreeRuns(host: Host, es: seq<Event>)
    requires After(host, es).row.Some?
    ensures RunnableTree(host, After(host, es).row.value.tree)
  {
    hide RuleValidator.Accepted, RuleValidator.Acceptable;
    NoLostSaves(host, es);
    var saves := WinningSaves(host, es);
    if saves != [] {
      RuleValidator.AcceptedTreeRuns(host, saves[|saves| - 1].req.body);
    }
  }

  // ---------- The row in place ----------

  predicate Fits(s: State) {
    s.row.Some? ==> s.row.value.version <= MAX_VERSION
  }

  lemma FitsStep(host: Host, s: State, e: Event)
    requires Fits(s)
    ensures Fits(Apply(host, s, e))
  {
    hide Sound;
  }

  /** Every step of a valid run is possible when its turn comes. */
  lemma {:induction false} StepOfRun(host: Host, s: State, es: seq<Event>, k: nat)
    requires Valid(host, s, es) && k < |es|
    ensures Enabled(host, RunFrom(host, s, es[..k]), es[k])
    ensures RunFrom(host, s, es[..k + 1]) == Apply(host, RunFrom(host, s, es[..k]), es[k])
  {
    hide Apply, Enabled;
    assert es[..k + 1][..k] == es[..k];
    if k < |es| - 1 {
      StepOfRun(host, s, es[..|es| - 1], k);
      assert es[..|es| - 1][..k] == es[..k];
    }
  }

  class RoleLink {
    const host: Host
    var row: Option<LinkRow>
    var open: map<nat, bool>
    var answers: map<nat, Result<int, SaveError>>

    constructor (host: Host)
      ensures this.host == host && Value() == INITIAL
    {
      this.host, row, open, answers := host, None, map[], map[];
    }

    function Value(): State
      reads this
    {
      State(row, open, answers)
    }

    /** The checks of a request: the account, the rule, and an account for the rule. */
    method Check(req: SaveRequest) returns (r: Result<RuleValidator.ParsedRule, SaveError>)
      ensures r.Ok? <==> Sound(host, req)
      ensures r.Ok? ==> r.value == RuleValidator.Accepted(host, req.body)
      ensures r.Err? ==> Blames(host, req, r.error)
      ensures r.Ok? <==>
        && (req.body.account.Some? ==> req.connected)
        && RuleValidator.Acceptable(host, req.body)
        && (req.body.grantOnAnyRelation || (req.body.account.Some? && Strings.Trim(req.body.account.value) != ""))
      ensures r.Ok? ==> RuleValidator.StoredRule(host, req.body, r.value)
      ensures r == Err(NotConnected) <==> req.body.account.Some? && !req.connected
    {
      SoundIff(host, req);
      hide RuleValidator.StoredRule;
      if req.body.account.Some? && !req.connected {
        return Err(NotConnected);
      }
      var parsed := RuleValidator.ParseRuleTree(host, req.body);
      if parsed.Err? {
        return Err(Invalid(parsed.error));
      }
      var rule := parsed.value;
      if rule.account.None? && !rule.tree.grantOnAnyRelation && rule.tree.groups != [] {
        return Err(NoAccount);
      }
      r := Ok(rule);
    }

    /** UPDATE ... WHERE rule_tree_version = expected; false when the statement itself fails. */
    method Write(save: nat, req: SaveRequest, rule: RuleValidator.ParsedRule) returns (ok: bool)
      requires Fits(Value()) && Enabled(host, Value(), Update(save, req))
      requires rule == RuleValidator.Accepted(host, req.body)
      modifies this
      ensures Value() == Apply(host, old(Value()), Update(save, req))
      ensures ok == !Overflows(host, old(row), req)
      ensures if old(row).Some? && old(row).value.version == req.expected < MAX_VERSION
              then row == Some(LinkRow(rule.account, rule.tree, req.expected + 1)) else row == old(row)
    {
      hide RuleValidator.Accepted, RuleValidator.Acceptable;
      var touched := row.Some? && row.value.version == req.expected;
      if touched && row.value.version == MAX_VERSION {
        answers := answers[save := Err(VersionOverflow)];
        return false;
      }
      if touched {
        row := Some(LinkRow(rule.account, rule.tree, row.value.version + 1));
      }
      open := open[save := touched];
      ok := true;
    }

    /** The second statement: read the version back, or look at why no row was touched. */
    method Finish(save: nat) returns (r: Result<int, SaveError>)
      requires save in open
      modifies this`open, this`answers
      ensures Value() == Apply(host, old(Value()), ReadBack(save))
      ensures r == Reply(row, old(open)[save])
      ensures r == if old(open)[save] then (if row.Some? then Ok(row.value.version) else Err(Vanished))
                   else if row.Some? then Err(StaleVersion) else Err(NotFound)
    {
      if open[save] {
        r := if row.Some? then Ok(row.value.version) else Err(Vanished);
      } else {
        r := Err(if row.None? then NotFound else StaleVersion);
      }
      open, answers := open - {save}, answers[save := r];
    }

    /** Registration inserts the row, or only renews the token of an existing one. */
    method Register()
      modifies this`row
      ensures Value() == Apply(host, old(Value()), Event.Register)
      ensures row == if old(row).Some? then old(row) else Some(LinkRow(None, RuleTree(false, []), 1))
    {
      if row.None? {
        row := Some(REGISTERED);
      }
    }

    /** Disconnecting an account unbinds it without touching the version. */
    method Disconnect(account: string)
      modifies this`row
      ensures Value() == Apply(host, old(Value()), Event.Disconnect(account))
      ensures row == if old(row).Some? && old(row).value.account == Some(account)
                     then Some(LinkRow(None, old(row).value.tree, old(row).value.version)) else old(row)
    {
      if row.Some? && row.value.account == Some(account) {
        row := Some(row.value.(account := None));
      }
    }

    method Delete()
      modifies this`row
      ensures Value() == Apply(host, old(Value()), Event.Delete)
      ensures row == None
    {
      row := None;
    }

    /** What other requests do, statement by statement. */
    method Run(es: seq<Event>)
      requires Fits(Value()) && Valid(host, Value(), es)
      modifies this
      ensures Value() == RunFrom(host, old(Value()), es) && Fits(Value())
    {
      hide Apply, Sound, Enabled;
      ghost var start := Value();
      assert RunFrom(host, start, []) == start;
      for k := 0 to |es|
        invariant Value() == RunFrom(host, start, es[..k]) && Fits(Value())
      {
        StepOfRun(host, start, es, k);
        FitsStep(host, Value(), es[k]);
        Perform(es[k]);
      }
      assert es[..|es|] == es;
    }

    method Perform(e: Event)
      requires Fits(Value()) && Enabled(host, Value(), e)
      modifies this
      ensures Value() == Apply(host, old(Value()), e)
    {
      hide Apply, Sound;
      match e {
        case Update(save, req) =>
          var checked := Check(req);
          var _ := Write(save, req, checked.value);
        case ReadBack(save) => var _ := Finish(save);
        case Register => Register();
        case Disconnect(account) => Disconnect(account);
        case Delete => Delete();
      }
    }

    /**
     * `role_config_save`, with what other requests do between its two statements. The row changes by the
     * UPDATE alone; the answer is read from the row as it is by then.
     */
    method Save(save: nat, req: SaveRequest, meanwhile: seq<Event>) returns (r: Result<int, SaveError>)
      requires Fits(Value()) && save !in open && save !in answers && ReadBack(save) !in meanwhile
      requires Sound(host, req) ==> Valid(host, Apply(host, Value(), Update(save, req)), meanwhile)
      modifies this
      ensures !Sound(host, req) ==> Value() == old(Value()) && r.Err? && Blames(host, req, r.error)
      ensures Overflows(host, old(row), req) ==>
        r == Err(VersionOverflow) && Value() == Apply(host, old(Value()), Update(save, req))
      ensures Sound(host, req) && !Overflows(host, old(row), req) ==>
        var read := RunFrom(host, Apply(host, old(Value()), Update(save, req)), meanwhile);
        && Value() == Apply(host, read, ReadBack(save))
        && r == Reply(read.row, Succeeds(host, old(row), req))
      ensures Sound(host, req) ==>
        var written := Apply(host, old(Value()), Update(save, req)).row;
        if old(row).Some? && old(row).value.version == req.expected < MAX_VERSION
        then RowHolds(host, written, req, req.expected + 1) else written == old(row)
    {
      UpdateTells(host, Value(), save, req);
      hide Apply, Sound, RunFrom, Valid, Blames, RowHolds, RuleValidator.StoredRule;
      var checked := Check(req);
      if checked.Err? {
        return Err(checked.error);
      }
      FitsStep(host, Value(), Update(save, req));
      var ok := Write(save, req, checked.value);
      if !ok {
        return Err(VersionOverflow);
      }
      UpdateOpens(host, old(Value()), save, req);
      ghost var written := Value();
      Run(meanwhile);
      OpenUntilReadBack(host, written, meanwhile, save);
      r := Finish(save);
    }
  }
}
