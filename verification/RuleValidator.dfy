/** Parsing and validation of the rule tree an admin submits. */
module RuleValidator {
  import opened Wrappers
  import opened Strings
  import opened Json
  import opened Rules
  import opened ConditionEval
  import opened StoredForm

  datatype ConditionInput = ConditionInput(target: string, op: string, value: Value, valueEnd: Option<Value>)

  datatype Body = Body(account: Option<string>, grantOnAnyRelation: bool, groups: seq<seq<ConditionInput>>)

  datatype ParsedRule = ParsedRule(account: Option<string>, tree: RuleTree)

  /** Why a condition is refused. */
  datatype Problem =
    | UnknownTarget | UnknownOperator | MembershipNeedsEq | OperatorMismatch
    | NeedsBool | NeedsInt | NeedsListValue | NeedsValue | NeedsMax | BadPattern | NotAtUri

  /** Why a body is refused; groups and conditions are numbered from 1. */
  datatype Refusal =
    | NoGroups
    | TooManyGroups
    | EmptyGroup(group: nat)
    | TooManyConditions(group: nat)
    | BadCondition(group: nat, condition: nat, problem: Problem)

  // ---------- Values ----------

  function NormalizeBool(raw: Value): Result<Value, Problem> {
    match raw
    case Bool(_) => Ok(raw)
    case Str(s) =>
      var word := Lower(Trim(s));
      if word in {"true", "1", "yes"} then Ok(Bool(true))
      else if word in {"false", "0", "no"} then Ok(Bool(false))
      else Err(NeedsBool)
    case _ => Err(NeedsBool)
  }

  function NormalizeInt(raw: Value): Result<Value, Problem> {
    match raw
    case Number(n) => Ok(FromI64(CoerceI64(n)))
    case Str(s) =>
      var n := ParseI64(Trim(s));
      if n.Some? then Ok(FromI64(n.value)) else Err(NeedsInt)
    case _ => Err(NeedsInt)
  }

  predicate KeptInList(v: Value) {
    !v.Null? && v != Str("")
  }

  function Keep(elems: seq<Value>): (r: seq<Value>)
    ensures forall v :: v in r <==> v in elems && KeptInList(v)
  {
    if elems == [] then []
    else (if KeptInList(elems[0]) then [elems[0]] else []) + Keep(elems[1..])
  }

  /** The comma-separated pieces of a string, trimmed, the blank ones dropped. */
  function ListItems(pieces: seq<string>): (r: seq<Value>)
    ensures forall v :: v in r ==> v.Str? && v.s != "" && IsTrimmed(v.s)
  {
    if pieces == [] then []
    else
      var item := Trim(pieces[0]);
      TrimIdempotent(pieces[0]);
      (if item != "" then [Str(item)] else []) + ListItems(pieces[1..])
  }

  function ListElems(raw: Value): seq<Value> {
    match raw
    case Array(elems) => Keep(elems)
    case Str(s) => ListItems(Split(s, ','))
    case Null => []
    case _ => [raw]
  }

  function NormalizeList(raw: Value): Result<Value, Problem> {
    var elems := ListElems(raw);
    if elems == [] then Err(NeedsListValue) else Ok(Array(elems))
  }

  function NormalizeText(host: Host, raw: Value): Result<Value, Problem> {
    match raw
    case Str(s) => if Trim(s) == "" then Err(NeedsValue) else Ok(raw)
    case Number(n) => Ok(Str(host.numberText(n)))
    case Bool(b) => Ok(Str(if b then "true" else "false"))
    case _ => Err(NeedsValue)
  }

  function NormalizeValue(host: Host, kind: TargetKind, op: Operator, raw: Value): Result<Value, Problem> {
    match kind
    case BoolKind => NormalizeBool(raw)
    case IntKind => NormalizeInt(raw)
    case StringKind => if op.In? || op.NotIn? then NormalizeList(raw) else NormalizeText(host, raw)
  }

  // ---------- Conditions ----------

  function ValidateCondition(host: Host, raw: ConditionInput): Result<Condition, Problem> {
    var target := TargetFromKey(Trim(raw.target));
    if target.None? then Err(UnknownTarget)
    else
      var op := OperatorFromKey(Trim(raw.op));
      if op.None? then Err(UnknownOperator)
      else ValidateParts(host, target.value, op.value, raw.value, raw.valueEnd)
  }

  function ValidateParts(
      host: Host, t: Target, op: Operator, raw: Value, rawEnd: Option<Value>): Result<Condition, Problem>
  {
    if t.IsMembership() && !op.Eq? then Err(MembershipNeedsEq)
    else if !op.ValidFor(t.Kind()) then Err(OperatorMismatch)
    else
      var value :- NormalizeValue(host, t.Kind(), op, raw);
      var valueEnd :- NormalizeEnd(host, t.Kind(), op, rawEnd);
      if op.Regex? && !host.compiles(if value.Str? then value.s else "") then Err(BadPattern)
      else if t.IsMembership() && !("at://" <= if value.Str? then value.s else "") then Err(NotAtUri)
      else Ok(Condition(t, op, value, valueEnd))
  }

  function NormalizeEnd(
      host: Host, kind: TargetKind, op: Operator, rawEnd: Option<Value>): Result<Option<Value>, Problem>
  {
    if !op.Between? then Ok(None)
    else if rawEnd.None? then Err(NeedsMax)
    else
      var end :- NormalizeValue(host, kind, op, rawEnd.value);
      Ok(Some(end))
  }

  // ---------- What is stored ----------

  lemma {:induction false} KeepAppend(a: seq<Value>, b: seq<Value>)
    ensures Keep(a + b) == Keep(a) + Keep(b)
  {
    if a == [] {
      assert a + b == b;
    } else {
      assert (a + b)[0] == a[0] && (a + b)[1..] == a[1..] + b;
      KeepAppend(a[1..], b);
    }
  }

  lemma KeepPush(elems: seq<Value>, n: nat)
    requires n < |elems|
    ensures Keep(elems[..n + 1]) == Keep(elems[..n]) + (if InList(elems[n]) then [elems[n]] else [])
  {
    KeepAppend(elems[..n], [elems[n]]);
    assert elems[..n + 1] == elems[..n] + [elems[n]];
    assert Keep([elems[n]][1..]) == [];
  }

  lemma {:induction false} KeepCounts(elems: seq<Value>, n: nat)
    requires n <= |elems|
    ensures |Keep(elems[..n])| == KeptBefore(elems, n)
  {
    if n > 0 {
      hide Keep, InList;
      KeepCounts(elems, n - 1);
      KeepPush(elems, n - 1);
    } else {
      assert elems[..0] == [];
    }
  }

  /** Keeping the first elements gives the first of the kept. */
  lemma KeepIsPrefix(elems: seq<Value>, n: nat)
    requires n <= |elems|
    ensures Keep(elems[..n]) <= Keep(elems)
  {
    hide Keep;
    KeepAppend(elems[..n], elems[n..]);
    assert elems[..n] + elems[n..] == elems;
  }

  lemma {:induction false} ListIsKeep(elems: seq<Value>, list: seq<Value>, n: nat)
    requires ElemsOf(elems, list) && n <= |elems|
    ensures KeptBefore(elems, n) <= |list| && list[..KeptBefore(elems, n)] == Keep(elems[..n])
  {
    if n > 0 {
      hide Keep, InList;
      ListIsKeep(elems, list, n - 1);
      KeepPush(elems, n - 1);
    } else {
      assert elems[..0] == [];
    }
  }

  lemma ElemsOfIff(elems: seq<Value>, list: seq<Value>)
    ensures ElemsOf(elems, list) <==> list == Keep(elems)
  {
    hide Keep, InList;
    assert elems[..|elems|] == elems;
    if ElemsOf(elems, list) {
      ListIsKeep(elems, list, |elems|);
    }
    if list == Keep(elems) {
      KeepCounts(elems, |elems|);
      forall i | 0 <= i < |elems| && InList(elems[i])
        ensures KeptBefore(elems, i) < |list| && list[KeptBefore(elems, i)] == elems[i]
      {
        KeepCounts(elems, i);
        KeepPush(elems, i);
        KeepIsPrefix(elems, i + 1);
      }
    }
  }

  lemma {:induction false} ItemsAreKept(pieces: seq<string>)
    ensures ListItems(pieces) == Keep(TrimmedItems(pieces))
  {
    if pieces != [] {
      ItemsAreKept(pieces[1..]);
      assert TrimmedItems(pieces)[1..] == TrimmedItems(pieces[1..]);
    }
  }

  lemma BoolStoredIff(raw: Value, v: Value)
    ensures NormalizeBool(raw) == Ok(v) <==> StoredBool(raw, v)
  {
  }

  lemma TruncationIff(r: real, n: I64)
    ensures TruncatesTo(r, n) <==> SaturatingCast(r) == n
  {
  }

  lemma IntSentIff(raw: Value, n: I64)
    ensures IntSent(raw, n) <==> NormalizeInt(raw) == Ok(FromI64(n))
  {
    if raw.Number? && raw.n.Float? {
      TruncationIff(raw.n.r, n);
      hide SaturatingCast, TruncatesTo;
    }
  }

  lemma IntStoredIff(raw: Value, v: Value)
    ensures NormalizeInt(raw) == Ok(v) <==> StoredInt(raw, v)
  {
    forall n: I64 {
      IntSentIff(raw, n);
    }
    hide IntSent;
    if NormalizeInt(raw) == Ok(v) {
      assert v.AsI64().Some? && v == FromI64(v.AsI64().value);
      assert IsInt(v, v.AsI64().value) && IntSent(raw, v.AsI64().value);
    }
  }

  lemma TextStoredIff(host: Host, raw: Value, v: Value)
    ensures NormalizeText(host, raw) == Ok(v) <==> StoredText(host, raw, v)
  {
  }

  lemma ListStoredIff(raw: Value, v: Value)
    ensures NormalizeList(raw) == Ok(v) <==> StoredList(raw, v)
  {
    hide Keep, ListItems, ElemsOf, Split;
    if v.Array? {
      match raw
      case Array(elems) => ElemsOfIff(elems, v.elems);
      case Str(s) =>
        ElemsOfIff(TrimmedItems(Split(s, ',')), v.elems);
        ItemsAreKept(Split(s, ','));
      case _ =>
    }
  }

  /** A value is normalized exactly to what it is stored as. */
  lemma ValueStoredIff(host: Host, kind: TargetKind, op: Operator, raw: Value, v: Value)
    ensures NormalizeValue(host, kind, op, raw) == Ok(v) <==> StoredValue(host, kind, op, raw, v)
  {
    BoolStoredIff(raw, v);
    IntStoredIff(raw, v);
    TextStoredIff(host, raw, v);
    ListStoredIff(raw, v);
    hide NormalizeBool, NormalizeInt, NormalizeText, NormalizeList, StoredBool, StoredInt, StoredText, StoredList;
  }

  /** The upper bound is the one that was sent, for `between`, and absent for any other operator. */
  ghost predicate StoredEnd(host: Host, t: Target, op: Operator, sent: Option<Value>, end: Option<Value>) {
    if op == Between then sent.Some? && end.Some? && StoredValue(host, t.Kind(), op, sent.value, end.value)
    else end == None
  }

  lemma EndStoredIff(host: Host, t: Target, op: Operator, sent: Option<Value>, end: Option<Value>)
    ensures NormalizeEnd(host, t.Kind(), op, sent) == Ok(end) <==> StoredEnd(host, t, op, sent, end)
  {
    if sent.Some? && end.Some? {
      ValueStoredIff(host, t.Kind(), op, sent.value, end.value);
    }
    hide NormalizeValue, StoredValue;
  }

  /** The pair is legal, the values are those that were sent, the pattern compiles, the list is named by a URI. */
  ghost predicate StoredParts(host: Host, raw: ConditionInput, c: Condition) {
    && Legal(c.target, c.op)
    && StoredValue(host, c.target.Kind(), c.op, raw.value, c.value)
    && StoredEnd(host, c.target, c.op, raw.valueEnd, c.valueEnd)
    && (c.op == Regex ==> c.value.Str? && host.compiles(c.value.s))
    && (c.target == IsOnList || c.target == IsOnStarterPack ==> c.value.Str? && "at://" <= c.value.s)
  }

  /** A stored condition is about the target and operator that were named, with the values that were sent. */
  ghost predicate StoredCondition(host: Host, raw: ConditionInput, c: Condition) {
    c.target.Key() == Trim(raw.target) && c.op.Key() == Trim(raw.op) && StoredParts(host, raw, c)
  }

  lemma PartsStoredIff(host: Host, t: Target, op: Operator, raw: ConditionInput, c: Condition)
    ensures ValidateParts(host, t, op, raw.value, raw.valueEnd) == Ok(c)
       <==> c.target == t && c.op == op && StoredParts(host, raw, c)
  {
    ValueStoredIff(host, t.Kind(), op, raw.value, c.value);
    EndStoredIff(host, t, op, raw.valueEnd, c.valueEnd);
    LegalIff(t, op);
    if StoredValue(host, t.Kind(), op, raw.value, c.value) {
      ValuesAreTexts(host, t, op, raw.value, c.value);
    }
    hide Legal, NormalizeValue, NormalizeEnd, StoredValue, StoredEnd;
  }

  lemma LegalIff(t: Target, op: Operator)
    ensures Legal(t, op) <==> op.ValidFor(t.Kind()) && (t.IsMembership() ==> op.Eq?)
  {
  }

  lemma ValuesAreTexts(host: Host, t: Target, op: Operator, raw: Value, v: Value)
    requires StoredValue(host, t.Kind(), op, raw, v)
    ensures t.Kind().StringKind? && !op.In? && !op.NotIn? ==> v.Str?
  {
  }

  /** A condition is accepted as exactly what it is stored as. */
  lemma ConditionStoredIff(host: Host, raw: ConditionInput, c: Condition)
    ensures ValidateCondition(host, raw) == Ok(c) <==> StoredCondition(host, raw, c)
  {
    TargetKeysRoundTrip(c.target, Trim(raw.target));
    OperatorKeysRoundTrip(c.op, Trim(raw.op));
    var t, op := TargetFromKey(Trim(raw.target)), OperatorFromKey(Trim(raw.op));
    if t.Some? && op.Some? {
      TargetKeysRoundTrip(t.value, Trim(raw.target));
      OperatorKeysRoundTrip(op.value, Trim(raw.op));
      PartsStoredIff(host, t.value, op.value, raw, c);
    }
    hide TargetFromKey, OperatorFromKey, Trim, ValidateParts, StoredParts;
  }

  ghost predicate NamesTarget(raw: ConditionInput, t: Target) {
    t.Key() == Trim(raw.target)
  }

  ghost predicate NamesOperator(raw: ConditionInput, op: Operator) {
    op.Key() == Trim(raw.op)
  }

  /** No value of the target's kind is sent; the problem says which kind is needed. */
  ghost predicate NeedsAnother(host: Host, kind: TargetKind, op: Operator, raw: Value, p: Problem) {
    && (forall v :: !StoredValue(host, kind, op, raw, v))
    && p == match kind
            case BoolKind => NeedsBool
            case IntKind => NeedsInt
            case StringKind => if op == In || op == NotIn then NeedsListValue else NeedsValue
  }

  ghost predicate GoodValue(host: Host, kind: TargetKind, op: Operator, raw: Value) {
    exists v :: StoredValue(host, kind, op, raw, v)
  }

  /** Why a condition that names this target and operator is refused. */
  ghost predicate PartsFault(host: Host, t: Target, op: Operator, raw: ConditionInput, p: Problem) {
    match p
    case MembershipNeedsEq => (t == IsOnList || t == IsOnStarterPack) && op != Eq
    case OperatorMismatch => t != IsOnList && t != IsOnStarterPack && !Legal(t, op)
    case NeedsMax => Legal(t, op) && op == Between && GoodValue(host, t.Kind(), op, raw.value) && raw.valueEnd == None
    case BadPattern =>
      op == Regex && exists v :: StoredValue(host, t.Kind(), op, raw.value, v) && v.Str? && !host.compiles(v.s)
    case NotAtUri =>
      && (t == IsOnList || t == IsOnStarterPack)
      && exists v :: StoredValue(host, t.Kind(), op, raw.value, v) && v.Str? && !("at://" <= v.s)
    case UnknownTarget | UnknownOperator => false
    case NeedsBool | NeedsInt | NeedsListValue | NeedsValue =>
      && Legal(t, op)
      && (|| NeedsAnother(host, t.Kind(), op, raw.value, p)
          || (op == Between && GoodValue(host, t.Kind(), op, raw.value)
              && raw.valueEnd.Some? && NeedsAnother(host, t.Kind(), op, raw.valueEnd.value, p)))
  }

  /** Why a condition is refused. */
  ghost predicate Fault(host: Host, raw: ConditionInput, p: Problem) {
    if forall t :: !NamesTarget(raw, t) then p == UnknownTarget
    else if forall op :: !NamesOperator(raw, op) then p == UnknownOperator
    else exists t, op :: NamesTarget(raw, t) && NamesOperator(raw, op) && PartsFault(host, t, op, raw, p)
  }

  lemma ValueFault(host: Host, kind: TargetKind, op: Operator, raw: Value)
    ensures NormalizeValue(host, kind, op, raw).Err? ==>
              NeedsAnother(host, kind, op, raw, NormalizeValue(host, kind, op, raw).error)
    ensures NormalizeValue(host, kind, op, raw).Ok? ==>
              StoredValue(host, kind, op, raw, NormalizeValue(host, kind, op, raw).value)
  {
    if NormalizeValue(host, kind, op, raw).Err? {
      WhatIsNeeded(host, kind, op, raw);
    }
    hide NormalizeValue, StoredValue;
    forall v
      ensures NormalizeValue(host, kind, op, raw) == Ok(v) <==> StoredValue(host, kind, op, raw, v)
    {
      ValueStoredIff(host, kind, op, raw, v);
    }
  }

  lemma WhatIsNeeded(host: Host, kind: TargetKind, op: Operator, raw: Value)
    requires NormalizeValue(host, kind, op, raw).Err?
    ensures NormalizeValue(host, kind, op, raw).error ==
            match kind
            case BoolKind => NeedsBool
            case IntKind => NeedsInt
            case StringKind => if op == In || op == NotIn then NeedsListValue else NeedsValue
  {
  }

  lemma EndFault(host: Host, t: Target, op: Operator, sent: Option<Value>)
    requires NormalizeEnd(host, t.Kind(), op, sent).Err?
    ensures op == Between
    ensures var p := NormalizeEnd(host, t.Kind(), op, sent).error;
            if sent == None then p == NeedsMax
            else
              && NeedsAnother(host, t.Kind(), op, sent.value, p)
              && p in {NeedsBool, NeedsInt, NeedsListValue, NeedsValue}
  {
    if sent.Some? {
      ValueFault(host, t.Kind(), op, sent.value);
    }
    hide NormalizeValue, StoredValue;
  }

  lemma ValueRefused(host: Host, t: Target, op: Operator, raw: ConditionInput)
    requires Legal(t, op) && NormalizeValue(host, t.Kind(), op, raw.value).Err?
    ensures PartsFault(host, t, op, raw, NormalizeValue(host, t.Kind(), op, raw.value).error)
  {
    ValueFault(host, t.Kind(), op, raw.value);
    WhatIsNeeded(host, t.Kind(), op, raw.value);
    hide NormalizeValue, NeedsAnother, Legal;
  }

  lemma EndRefused(host: Host, t: Target, op: Operator, raw: ConditionInput)
    requires Legal(t, op) && NormalizeValue(host, t.Kind(), op, raw.value).Ok?
    requires NormalizeEnd(host, t.Kind(), op, raw.valueEnd).Err?
    ensures PartsFault(host, t, op, raw, NormalizeEnd(host, t.Kind(), op, raw.valueEnd).error)
  {
    ValueFault(host, t.Kind(), op, raw.value);
    EndFault(host, t, op, raw.valueEnd);
    assert GoodValue(host, t.Kind(), op, raw.value);
    hide NormalizeValue, NormalizeEnd, NeedsAnother, Legal, StoredValue, GoodValue;
  }

  lemma ChecksFail(host: Host, t: Target, op: Operator, raw: ConditionInput, v: Value)
    requires NormalizeValue(host, t.Kind(), op, raw.value) == Ok(v)
    ensures op == Regex && (v.Str? ==> !host.compiles(v.s)) && t.Kind().StringKind? ==>
              PartsFault(host, t, op, raw, BadPattern)
    ensures t.IsMembership() && op == Eq && (v.Str? ==> !("at://" <= v.s)) ==> PartsFault(host, t, op, raw, NotAtUri)
  {
    ValueFault(host, t.Kind(), op, raw.value);
    ValuesAreTexts(host, t, op, raw.value, v);
    hide NormalizeValue, NeedsAnother, Legal, StoredValue;
  }

  lemma PartsFaultTells(host: Host, t: Target, op: Operator, raw: ConditionInput)
    requires ValidateParts(host, t, op, raw.value, raw.valueEnd).Err?
    ensures PartsFault(host, t, op, raw, ValidateParts(host, t, op, raw.value, raw.valueEnd).error)
  {
    LegalIff(t, op);
    if !Legal(t, op) {
      hide Legal;
    } else {
      hide NormalizeValue, NormalizeEnd, StoredValue, PartsFault, Legal;
      var value := NormalizeValue(host, t.Kind(), op, raw.value);
      if value.Err? {
        ValueRefused(host, t, op, raw);
      } else if NormalizeEnd(host, t.Kind(), op, raw.valueEnd).Err? {
        EndRefused(host, t, op, raw);
      } else {
        ChecksFail(host, t, op, raw, value.value);
        ValueFault(host, t.Kind(), op, raw.value);
        ValuesAreTexts(host, t, op, raw.value, value.value);
      }
    }
  }

  /** A refused condition is refused for what is wrong with it. */
  lemma FaultTells(host: Host, raw: ConditionInput)
    requires ValidateCondition(host, raw).Err?
    ensures Fault(host, raw, ValidateCondition(host, raw).error)
  {
    forall t
      ensures TargetFromKey(Trim(raw.target)) == Some(t) <==> NamesTarget(raw, t)
    {
      TargetKeysRoundTrip(t, Trim(raw.target));
    }
    forall op
      ensures OperatorFromKey(Trim(raw.op)) == Some(op) <==> NamesOperator(raw, op)
    {
      OperatorKeysRoundTrip(op, Trim(raw.op));
    }
    hide TargetFromKey, OperatorFromKey, Trim, NamesTarget, NamesOperator, ValidateParts, PartsFault;
    var t, op := TargetFromKey(Trim(raw.target)), OperatorFromKey(Trim(raw.op));
    if t.Some? && op.Some? {
      PartsFaultTells(host, t.value, op.value, raw);
    }
  }

  // ---------- The whole body ----------

  predicate AllOk(host: Host, raw: seq<ConditionInput>) {
    forall k :: 0 <= k < |raw| ==> ValidateCondition(host, raw[k]).Ok?
  }

  predicate GroupOk(host: Host, raw: seq<ConditionInput>) {
    1 <= |raw| <= MAX_CONDITIONS_PER_GROUP && AllOk(host, raw)
  }

  predicate Acceptable(host: Host, body: Body) {
    body.grantOnAnyRelation
    || (1 <= |body.groups| <= MAX_GROUPS && forall k :: 0 <= k < |body.groups| ==> GroupOk(host, body.groups[k]))
  }

  function ValidatedGroup(host: Host, raw: seq<ConditionInput>): (g: Group)
    requires GroupOk(host, raw)
    ensures |g| == |raw|
  {
    seq(|raw|, k requires 0 <= k < |raw| => ValidateCondition(host, raw[k]).value)
  }

  function TrimmedAccount(account: Option<string>): Option<string> {
    if account.Some? && Trim(account.value) != "" then Some(Trim(account.value)) else None
  }

  /** What an acceptable body is stored as. */
  function Accepted(host: Host, body: Body): ParsedRule
    requires Acceptable(host, body)
  {
    ParsedRule(
      TrimmedAccount(body.account),
      RuleTree(
        body.grantOnAnyRelation,
        if body.grantOnAnyRelation then []
        else seq(|body.groups|, k requires 0 <= k < |body.groups| => ValidatedGroup(host, body.groups[k]))))
  }

  /** The refusal names the first thing wrong, in reading order. */
  predicate Explains(host: Host, body: Body, why: Refusal) {
    && !body.grantOnAnyRelation
    && match why
       case NoGroups => body.groups == []
       case TooManyGroups => |body.groups| > MAX_GROUPS
       case EmptyGroup(g) => FirstBadGroup(host, body, g) && body.groups[g - 1] == []
       case TooManyConditions(g) =>
         FirstBadGroup(host, body, g) && |body.groups[g - 1]| > MAX_CONDITIONS_PER_GROUP
       case BadCondition(g, c, problem) =>
         && FirstBadGroup(host, body, g)
         && 1 <= c <= |body.groups[g - 1]| <= MAX_CONDITIONS_PER_GROUP
         && ValidateCondition(host, body.groups[g - 1][c - 1]) == Err(problem)
         && AllOk(host, body.groups[g - 1][..c - 1])
  }

  predicate FirstBadGroup(host: Host, body: Body, g: nat) {
    && 1 <= g <= |body.groups| <= MAX_GROUPS
    && forall k :: 0 <= k < g - 1 ==> GroupOk(host, body.groups[k])
  }

  /** The account is the one that was sent, trimmed, or None when it is missing or blank. */
  predicate StoredAccount(sent: Option<string>, stored: Option<string>) {
    if sent.Some? && Trim(sent.value) != "" then stored == Some(Trim(sent.value)) else stored == None
  }

  /** The stored rule is the one that was sent: the same groups and conditions in the same places. */
  ghost predicate StoredRule(host: Host, body: Body, rule: ParsedRule) {
    && StoredAccount(body.account, rule.account)
    && rule.tree.grantOnAnyRelation == body.grantOnAnyRelation
    && (if body.grantOnAnyRelation then rule.tree.groups == []
        else
          && |rule.tree.groups| == |body.groups|
          && forall g :: 0 <= g < |body.groups| ==> StoredGroup(host, body.groups[g], rule.tree.groups[g]))
  }

  ghost predicate StoredGroup(host: Host, raw: seq<ConditionInput>, g: Group) {
    |g| == |raw| && forall k :: 0 <= k < |raw| ==> StoredCondition(host, raw[k], g[k])
  }

  /** A body is acceptable exactly if its counts are right and each of its conditions can be stored. */
  lemma AcceptableIff(host: Host, body: Body)
    ensures Acceptable(host, body) <==>
              || body.grantOnAnyRelation
              || (1 <= |body.groups| <= 8
                  && forall g :: 0 <= g < |body.groups| ==>
                       1 <= |body.groups[g]| <= 12 && AllStorable(host, body.groups[g]))
  {
    hide ValidateCondition, Storable;
    forall g | 0 <= g < |body.groups|
      ensures AllOk(host, body.groups[g]) <==> AllStorable(host, body.groups[g])
    {
      forall k | 0 <= k < |body.groups[g]| {
        StorableIff(host, body.groups[g][k]);
      }
    }
  }

  ghost predicate Storable(host: Host, raw: ConditionInput) {
    exists c :: StoredCondition(host, raw, c)
  }

  ghost predicate AllStorable(host: Host, raw: seq<ConditionInput>) {
    forall k :: 0 <= k < |raw| ==> Storable(host, raw[k])
  }

  lemma StorableIff(host: Host, raw: ConditionInput)
    ensures ValidateCondition(host, raw).Ok? <==> Storable(host, raw)
  {
    hide StoredCondition, ValidateCondition;
    if ValidateCondition(host, raw).Ok? {
      ConditionStoredIff(host, raw, ValidateCondition(host, raw).value);
    }
    if c :| StoredCondition(host, raw, c) {
      ConditionStoredIff(host, raw, c);
    }
  }

  /** What an acceptable body is stored as is the rule that was sent. */
  lemma AcceptedIsStored(host: Host, body: Body)
    requires Acceptable(host, body)
    ensures StoredRule(host, body, Accepted(host, body))
  {
    hide StoredCondition, ValidateCondition, Trim;
    if !body.grantOnAnyRelation {
      forall g, k | 0 <= g < |body.groups| && 0 <= k < |body.groups[g]|
        ensures StoredCondition(host, body.groups[g][k], Accepted(host, body).tree.groups[g][k])
      {
        assert GroupOk(host, body.groups[g]);
        ConditionStoredIff(host, body.groups[g][k], ValidateCondition(host, body.groups[g][k]).value);
      }
    }
  }

  method ParseRuleTree(host: Host, body: Body) returns (r: Result<ParsedRule, Refusal>)
    ensures r.Ok? <==> Acceptable(host, body)
    ensures r.Ok? ==> r.value == Accepted(host, body)
    ensures r.Err? ==> Explains(host, body, r.error)
    ensures r.Ok? ==> StoredRule(host, body, r.value)
    ensures r.Err? && r.error.BadCondition? ==>
      Fault(host, body.groups[r.error.group - 1][r.error.condition - 1], r.error.problem)
  {
    hide ValidateCondition, TrimmedAccount, StoredRule, Fault;
    if Acceptable(host, body) {
      AcceptedIsStored(host, body);
    }
    if !body.grantOnAnyRelation {
      if body.groups == [] {
        return Err(NoGroups);
      }
      if |body.groups| > MAX_GROUPS {
        return Err(TooManyGroups);
      }
    }

    var groups: seq<Group> := [];
    if !body.grantOnAnyRelation {
      for gi := 0 to |body.groups|
        invariant |groups| == gi
        invariant forall k :: 0 <= k < gi ==>
          GroupOk(host, body.groups[k]) && groups[k] == ValidatedGroup(host, body.groups[k])
      {
        var rawGroup := body.groups[gi];
        if rawGroup == [] {
          return Err(EmptyGroup(gi + 1));
        }
        if |rawGroup| > MAX_CONDITIONS_PER_GROUP {
          return Err(TooManyConditions(gi + 1));
        }
        var conditions: Group := [];
        for ci := 0 to |rawGroup|
          invariant |conditions| == ci
          invariant forall k :: 0 <= k < ci ==> ValidateCondition(host, rawGroup[k]) == Ok(conditions[k])
        {
          var c := ValidateCondition(host, rawGroup[ci]);
          if c.Err? {
            FaultTells(host, rawGroup[ci]);
            return Err(BadCondition(gi + 1, ci + 1, c.error));
          }
          conditions := conditions + [c.value];
        }
        assert GroupOk(host, rawGroup) && conditions == ValidatedGroup(host, rawGroup);
        groups := groups + [conditions];
      }
    }

    r := Ok(ParsedRule(TrimmedAccount(body.account), RuleTree(body.grantOnAnyRelation, groups)));
  }

  // ---------- What acceptance guarantees ----------

  /** What is assumed of the number formatter: it never writes a blank. */
  ghost predicate WritesNumbers(host: Host) {
    forall n: Num :: Trim(host.numberText(n)) != ""
  }

  lemma NormalizedFits(host: Host, kind: TargetKind, op: Operator, raw: Value)
    requires NormalizeValue(host, kind, op, raw).Ok? && op.ValidFor(kind)
    ensures ValueFits(kind, op, NormalizeValue(host, kind, op, raw).value)
  {
  }

  /** Every accepted condition is one the back ends can run. */
  lemma AcceptedConditionRuns(host: Host, raw: ConditionInput)
    requires ValidateCondition(host, raw).Ok?
    ensures Runnable(host, ValidateCondition(host, raw).value)
  {
    var c := ValidateCondition(host, raw).value;
    NormalizedFits(host, c.target.Kind(), c.op, raw.value);
    if c.op.Between? {
      NormalizedFits(host, c.target.Kind(), c.op, raw.valueEnd.value);
    }
  }

  lemma AcceptedTreeRuns(host: Host, body: Body)
    requires Acceptable(host, body)
    ensures RunnableTree(host, Accepted(host, body).tree)
  {
    forall g, c | g in Accepted(host, body).tree.groups && c in g
      ensures Runnable(host, c)
    {
      var k :| 0 <= k < |body.groups| && g == ValidatedGroup(host, body.groups[k]);
      var j :| 0 <= j < |g| && c == g[j];
      AcceptedConditionRuns(host, body.groups[k][j]);
    }
  }

  // ---------- Re-submitting what is stored ----------

  /** A stored condition as the editor sends it back. */
  function Resubmit(c: Condition): ConditionInput {
    ConditionInput(c.target.Key(), c.op.Key(), c.value, c.valueEnd)
  }

  function ResubmitGroup(g: Group): (raw: seq<ConditionInput>)
    ensures |raw| == |g|
  {
    seq(|g|, k requires 0 <= k < |g| => Resubmit(g[k]))
  }

  function ResubmitRule(rule: ParsedRule): Body {
    Body(
      rule.account,
      rule.tree.grantOnAnyRelation,
      seq(|rule.tree.groups|, k requires 0 <= k < |rule.tree.groups| => ResubmitGroup(rule.tree.groups[k])))
  }

  lemma {:induction false} KeepIsStable(elems: seq<Value>)
    requires forall v :: v in elems ==> KeptInList(v)
    ensures Keep(elems) == elems
  {
    if elems != [] {
      assert elems == [elems[0]] + elems[1..];
      KeepIsStable(elems[1..]);
    }
  }

  lemma IntIsStable(raw: Value)
    requires NormalizeInt(raw).Ok?
    ensures NormalizeInt(NormalizeInt(raw).value) == NormalizeInt(raw)
  {
    var v := NormalizeInt(raw).value;
    assert v.Number?;
    assert CoerceI64(v.n) == v.AsI64().value;
  }

  lemma TextIsStable(host: Host, raw: Value)
    requires WritesNumbers(host) && NormalizeText(host, raw).Ok?
    ensures NormalizeText(host, NormalizeText(host, raw).value) == NormalizeText(host, raw)
  {
    if raw.Bool? {
      assert "true"[0] == 't' && "false"[0] == 'f' && "true"[3] == 'e' && "false"[4] == 'e';
    }
  }

  /** A stored value is already in normal form. */
  lemma NormalizeIsIdempotent(host: Host, kind: TargetKind, op: Operator, raw: Value)
    requires WritesNumbers(host) && NormalizeValue(host, kind, op, raw).Ok?
    ensures var v := NormalizeValue(host, kind, op, raw).value; NormalizeValue(host, kind, op, v) == Ok(v)
  {
    match kind
    case BoolKind =>
    case IntKind =>
      hide NormalizeInt;
      IntIsStable(raw);
    case StringKind =>
      if op.In? || op.NotIn? {
        KeepIsStable(ListElems(raw));
      } else {
        hide NormalizeText;
        TextIsStable(host, raw);
      }
  }

  lemma WordIsTrimmed(s: string)
    requires s != "" && 'a' <= s[0] <= 'z' && 'a' <= s[|s| - 1] <= 'z'
    ensures Trim(s) == s
  {
    TrimIdempotent(s);
  }

  lemma TargetKeyIsTrimmed(t: Target)
    ensures Trim(t.Key()) == t.Key()
  {
    hide Trim;
    WordIsTrimmed(t.Key());
  }

  lemma OperatorKeyIsTrimmed(op: Operator)
    ensures Trim(op.Key()) == op.Key()
  {
    hide Trim;
    WordIsTrimmed(op.Key());
  }

  lemma ConditionIsStable(host: Host, raw: ConditionInput)
    requires WritesNumbers(host) && ValidateCondition(host, raw).Ok?
    ensures var c := ValidateCondition(host, raw).value; ValidateCondition(host, Resubmit(c)) == Ok(c)
  {
    hide Trim, TargetFromKey, OperatorFromKey, NormalizeValue;
    var c := ValidateCondition(host, raw).value;
    TargetKeyIsTrimmed(c.target);
    OperatorKeyIsTrimmed(c.op);
    TargetKeysRoundTrip(c.target, c.target.Key());
    OperatorKeysRoundTrip(c.op, c.op.Key());
    NormalizeIsIdempotent(host, c.target.Kind(), c.op, raw.value);
    if c.op.Between? {
      NormalizeIsIdempotent(host, c.target.Kind(), c.op, raw.valueEnd.value);
    }
  }

  lemma GroupIsStable(host: Host, raw: seq<ConditionInput>)
    requires WritesNumbers(host) && GroupOk(host, raw)
    ensures var g := ValidatedGroup(host, raw);
            GroupOk(host, ResubmitGroup(g)) && ValidatedGroup(host, ResubmitGroup(g)) == g
  {
    hide ValidateCondition;
    forall k | 0 <= k < |raw| {
      ConditionIsStable(host, raw[k]);
    }
  }

  /** Saving what the editor loaded is accepted and stores the same rule again. */
  lemma ValidationIsIdempotent(host: Host, body: Body)
    requires WritesNumbers(host) && Acceptable(host, body)
    ensures var stored := Accepted(host, body);
            Acceptable(host, ResubmitRule(stored)) && Accepted(host, ResubmitRule(stored)) == stored
  {
    hide GroupOk;
    var stored := Accepted(host, body);
    if body.account.Some? {
      TrimIdempotent(body.account.value);
    }
    if !body.grantOnAnyRelation {
      forall k | 0 <= k < |body.groups| {
        GroupIsStable(host, body.groups[k]);
      }
      assert Accepted(host, ResubmitRule(stored)).tree.groups == stored.tree.groups;
    }
  }
}
