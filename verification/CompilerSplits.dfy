/**
 * The three ways in which the compiled clause and the interpreter part, each on a concrete viewer.
 * `CompilerCorrect.ConditionAgreesIff` says that there are no others.
 */
module CompilerSplits {
  import opened Wrappers
  import Json
  import opened Rules
  import opened Facts
  import opened ConditionEval
  import opened Sql
  import opened RuleSql
  import opened CompilerCorrect
  import RuleSqlShape
  import RuleValidator
  import Strings

  const SOMEONE := UserRow("did:viewer", "viewer.example", None, false, None, None, None, false, false, 0, 0, 0, None)

  function Row(host: Host, user: UserRow, listMembers: set<(string, string)>, c: Condition): Env {
    var db := Db(map[], map[], {}, map["at://other/list" := "did:other"], listMembers, map[], {});
    Env(host, 0, db, "1", user, None, None, RuleSqlShape.ValuesOf(ConditionBinds(c)))
  }

  const AT_LEAST_ZERO_DAYS := Condition(AccountAgeDays, Gte, Json.Number(Json.PosInt(0)), None)

  /** An account created a microsecond from now is 0 days old to the evaluator and -1 to the database. */
  lemma FutureStampSplits(host: Host)
    ensures var env := Row(host, SOMEONE.(createdAt := Some(1)), {}, AT_LEAST_ZERO_DAYS);
            Verdict(AT_LEAST_ZERO_DAYS, env, "did:me") && !Holds(ConditionExpr(AT_LEAST_ZERO_DAYS, 1), env)
  {
    var env := Row(host, SOMEONE.(createdAt := Some(1)), {}, AT_LEAST_ZERO_DAYS);
    assert FloorDays(0, 1) == -1;
    assert SplitByFuture(AT_LEAST_ZERO_DAYS, env);
    assert env.params[0..1] == env.params;
    ConditionAgreesIff(AT_LEAST_ZERO_DAYS, 1, env, "did:me");
  }

  const ON_OTHERS_LIST := Condition(IsOnList, Eq, Json.Str("at://other/list"), None)

  /** A member of somebody else's list: selected by the clause, refused by the evaluator. */
  lemma UnownedListSplits(host: Host)
    ensures var env := Row(host, SOMEONE, {("at://other/list", "did:viewer")}, ON_OTHERS_LIST);
            !Verdict(ON_OTHERS_LIST, env, "did:me") && Holds(ConditionExpr(ON_OTHERS_LIST, 1), env)
  {
    var env := Row(host, SOMEONE, {("at://other/list", "did:viewer")}, ON_OTHERS_LIST);
    assert SplitByOwner(ON_OTHERS_LIST, env, "did:me") by {
      assert "did:other" != "did:me";
    }
    assert !Verdict(ON_OTHERS_LIST, env, "did:me") by {
      assert "at://other/list" !in LoadMemberships(env.db, "did:me", "did:viewer").lists;
    }
    assert env.params[0..1] == env.params;
    ConditionAgreesIff(ON_OTHERS_LIST, 1, env, "did:me");
  }

  const NOT_IN_A_NUMBER := RuleValidator.ConditionInput("display_name", "not_in", Json.Number(Json.PosInt(5)), None)

  const NOT_IN_NO_STRING := Condition(DisplayName, NotIn, Json.Array([Json.Number(Json.PosInt(5))]), None)

  /** `display_name not_in 5` is accepted, and stored as a list without strings. */
  lemma NumberListIsAccepted(host: Host)
    ensures RuleValidator.ValidateCondition(host, NOT_IN_A_NUMBER) == Ok(NOT_IN_NO_STRING)
  {
    hide Strings.Trim, TargetFromKey, OperatorFromKey;
    RuleValidator.TargetKeyIsTrimmed(DisplayName);
    RuleValidator.OperatorKeyIsTrimmed(NotIn);
    TargetKeysRoundTrip(DisplayName, DisplayName.Key());
    OperatorKeysRoundTrip(NotIn, NotIn.Key());
  }

  /** For a viewer with no display name its clause is TRUE and the evaluator says no. */
  lemma NumberListSplits(host: Host)
    ensures var env := Row(host, SOMEONE, {}, NOT_IN_NO_STRING);
            !Verdict(NOT_IN_NO_STRING, env, "did:me") && Holds(ConditionExpr(NOT_IN_NO_STRING, 1), env)
  {
    assert StrArray(NOT_IN_NO_STRING) == [];
    var env := Row(host, SOMEONE, {}, NOT_IN_NO_STRING);
    assert env.params[0..0] == env.params;
    ConditionAgreesIff(NOT_IN_NO_STRING, 1, env, "did:me");
  }
}
