/**
 * The text of SQL expressions, after lexing, and a reader for it under the operator precedence of
 * PostgreSQL 16, section 4.1.6. The main result: printing an expression and reading it back, in
 * any context that does not extend it, gives the same expression.
 */
module SqlText {
  import opened Wrappers
  import opened Sql

  datatype Token =
    | LParen | RParen | Comma
    | Op(op: BinOp)          // OR, AND, a comparison, LIKE, ~, -, / and, as three words, IS DISTINCT FROM
    | IsNotNullWords         // IS NOT NULL
    | AnyWord | AllWord
    | TextArrayCast          // ::text[]
    | FunctionName(f: Function)   // FLOOR, LOWER and, with its FROM, EXTRACT(EPOCH FROM
    | CoalesceWord
    | NowCall                // now()
    | ExistsHead(table: Table)    // EXISTS (SELECT 1 FROM table m WHERE
    | ColumnName(column: Column)
    | Placeholder(i: nat)
    | BoolWord(b: bool)
    | Numeral(n: nat)

  type Text = seq<Token>

  // ---------- Precedence ----------

  /** Binding strength, loosest first; 8 is the postfix cast and 9 everything self-delimiting. */
  function OpLevel(op: BinOp): nat {
    match op
    case OrOp => 0
    case AndOp => 1
    case DistinctOp => 2
    case Cmp(_) => 3
    case LikeOp => 4
    case MatchOp => 5
    case MinusOp => 6
    case DivOp => 7
  }

  /** IS, comparisons and LIKE do not associate; the others group to the left. */
  predicate GroupsLeft(op: BinOp) {
    !(op.DistinctOp? || op.Cmp? || op.LikeOp?)
  }

  /** The level at which a token continues an expression; -1 when it cannot. */
  function InfixLevel(t: Token): int {
    match t
    case Op(op) => OpLevel(op)
    case IsNotNullWords => 2
    case TextArrayCast => 8
    case _ => -1
  }

  function Level(e: Expr): nat {
    match e
    case Binary(op, _, _) => OpLevel(op)
    case Quantified(_, _, _, _) => 3
    case IsNotNull(_) => 2
    case CastTextArray(_) => 8
    case _ => 9
  }

  /** Parentheses are explicit in the tree wherever the precedence rules need them. */
  predicate Fits(e: Expr) {
    match e
    case Paren(inner) => Fits(inner)
    case Call(_, inner) => Fits(inner)
    case Coalesce(inner, fallback) => Fits(inner) && Fits(fallback)
    case Exists(_, cond) => Fits(cond)
    case CastTextArray(inner) => Fits(inner) && Level(inner) >= 8
    case IsNotNull(inner) => Fits(inner) && Level(inner) > 2
    case Quantified(_, _, l, r) => Fits(l) && Level(l) > 3 && Fits(r)
    case Binary(op, l, r) =>
      && Fits(l) && Fits(r)
      && Level(r) > OpLevel(op)
      && (if GroupsLeft(op) then Level(l) >= OpLevel(op) else Level(l) > OpLevel(op))
    case _ => true
  }

  // ---------- Printing ----------

  function Print(e: Expr): Text {
    match e
    case BoolLit(b) => [BoolWord(b)]
    case IntLit(n) => [Numeral(n)]
    case Col(c) => [ColumnName(c)]
    case Param(i) => [Placeholder(i)]
    case Now => [NowCall]
    case Paren(inner) => [LParen] + Print(inner) + [RParen]
    case Call(f, inner) => [FunctionName(f), LParen] + Print(inner) + [RParen]
    case Coalesce(inner, fallback) => [CoalesceWord, LParen] + Print(inner) + [Comma] + Print(fallback) + [RParen]
    case Exists(table, cond) => [ExistsHead(table)] + Print(cond) + [RParen]
    case CastTextArray(inner) => Print(inner) + [TextArrayCast]
    case IsNotNull(inner) => Print(inner) + [IsNotNullWords]
    case Quantified(cmp, all, l, r) =>
      Print(l) + [Op(Cmp(cmp)), if all then AllWord else AnyWord, LParen] + Print(r) + [RParen]
    case Binary(op, l, r) => Print(l) + [Op(op)] + Print(r)
  }

  // ---------- Reading ----------

  type Reading = Option<(Expr, Text)>

  /** Reads `close` after an expression and drops it. */
  function Close(r: Reading, close: Token): (out: Reading)
    ensures out.Some? ==> r.Some? && |out.value.1| < |r.value.1|
  {
    if r.Some? && r.value.1 != [] && r.value.1[0] == close then Some((r.value.0, r.value.1[1..])) else None
  }

  function ReadAtom(ts: Text): (r: Reading)
    ensures r.Some? ==> |r.value.1| < |ts|
    decreases |ts|, 0
  {
    if ts == [] then None
    else
      match ts[0]
      case BoolWord(b) => Some((BoolLit(b), ts[1..]))
      case Numeral(n) => Some((IntLit(n), ts[1..]))
      case ColumnName(c) => Some((Col(c), ts[1..]))
      case Placeholder(i) => Some((Param(i), ts[1..]))
      case NowCall => Some((Now, ts[1..]))
      case LParen =>
        var inner := Close(Read(0, ts[1..]), RParen);
        if inner.Some? then Some((Paren(inner.value.0), inner.value.1)) else None
      case FunctionName(f) =>
        if |ts| < 2 || ts[1] != LParen then None
        else
          var inner := Close(Read(0, ts[2..]), RParen);
          if inner.Some? then Some((Call(f, inner.value.0), inner.value.1)) else None
      case CoalesceWord =>
        if |ts| < 2 || ts[1] != LParen then None
        else
          var inner := Close(Read(0, ts[2..]), Comma);
          if inner.None? then None
          else
            var fallback := Close(Read(0, inner.value.1), RParen);
            if fallback.Some? then Some((Coalesce(inner.value.0, fallback.value.0), fallback.value.1)) else None
      case ExistsHead(table) =>
        var cond := Close(Read(0, ts[1..]), RParen);
        if cond.Some? then Some((Exists(table, cond.value.0), cond.value.1)) else None
      case _ => None
  }

  /** Reads an expression whose operators all bind at least as tightly as `lvl`. */
  function Read(lvl: nat, ts: Text): (r: Reading)
    requires lvl <= 9
    ensures r.Some? ==> |r.value.1| < |ts|
    decreases |ts|, 10 - lvl
  {
    if lvl == 9 then ReadAtom(ts)
    else
      var left := Read(lvl + 1, ts);
      if left.Some? then Extend(lvl, left.value.0, left.value.1) else None
  }

  /** Having read `l`, takes in the operators of level `lvl` that follow. */
  function Extend(lvl: nat, l: Expr, ts: Text): (r: Reading)
    requires lvl <= 8
    ensures r.Some? ==> |r.value.1| <= |ts|
    decreases |ts|, 0
  {
    if ts == [] || InfixLevel(ts[0]) != lvl then Some((l, ts))
    else
      match ts[0]
      case TextArrayCast => Extend(lvl, CastTextArray(l), ts[1..])
      case IsNotNullWords => Some((IsNotNull(l), ts[1..]))
      case Op(op) =>
        if op.Cmp? && |ts| > 2 && ts[1] in {AnyWord, AllWord} then
          if ts[2] != LParen then None
          else
            var arr := Close(Read(0, ts[3..]), RParen);
            if arr.Some? then Some((Quantified(op.cmp, ts[1].AllWord?, l, arr.value.0), arr.value.1)) else None
        else
          var right := Read(lvl + 1, ts[1..]);
          if right.None? then None
          else if GroupsLeft(op) then Extend(lvl, Binary(op, l, right.value.0), right.value.1)
          else Some((Binary(op, l, right.value.0), right.value.1))
      case _ => None
  }

  /** A whole text is an expression when reading it leaves nothing over. */
  function Parse(ts: Text): Option<Expr> {
    var r := Read(0, ts);
    if r.Some? && r.value.1 == [] then Some(r.value.0) else None
  }

  // ---------- Printing, then reading ----------

  /** What follows does not continue an expression at level `lvl` or tighter. */
  predicate Stops(lvl: int, ts: Text) {
    ts == [] || InfixLevel(ts[0]) < lvl
  }

  /** Reading at a looser level gives the same answer once the text stops. */
  lemma {:induction false} Loosen(lvl: nat, from: nat, e: Expr, ts: Text, rest: Text)
    requires lvl <= from <= 9
    requires Read(from, ts) == Some((e, rest)) && Stops(from, rest) && Stops(lvl + 1, rest)
    ensures lvl < from ==> Read(lvl, ts) == Extend(lvl, e, rest)
    ensures Stops(lvl, rest) ==> Read(lvl, ts) == Some((e, rest))
    decreases from - lvl
  {
    if lvl < from {
      Loosen(lvl + 1, from, e, ts, rest);
    }
  }

  /** Reading a printed expression between delimiters. */
  lemma {:induction false} ReadInside(e: Expr, ts: Text, close: Token, rest: Text)
    requires Fits(e) && InfixLevel(close) == -1
    requires ts == Print(e) + [close] + rest
    ensures Close(Read(0, ts), close) == Some((e, rest))
    decreases e, 2
  {
    var after := [close] + rest;
    assert ts == Print(e) + after;
    ReadPrinted(0, e, ts, after);
    assert after[1..] == rest;
  }

  lemma {:induction false} ReadPrinted(lvl: nat, e: Expr, ts: Text, rest: Text)
    requires Fits(e) && lvl <= Level(e) && Stops(lvl, rest)
    requires ts == Print(e) + rest
    ensures Read(lvl, ts) == Some((e, rest))
    decreases e, 1
  {
    ReadAtOwnLevel(e, ts, rest);
    if Level(e) < 9 {
      assert Read(Level(e), ts) == Some((e, rest));
    }
    Loosen(lvl, Level(e), e, ts, rest);
  }

  /** Expressions whose level can take in further operators after them. */
  predicate Chains(e: Expr) {
    e.CastTextArray? || (e.Binary? && GroupsLeft(e.op))
  }

  /** At its own level a printed expression is read up to where that level's loop goes on. */
  lemma {:induction false} ReadAtOwnLevel(e: Expr, ts: Text, rest: Text)
    requires Fits(e) && Stops(Level(e) + 1, rest)
    requires ts == Print(e) + rest
    ensures Level(e) == 9 ==> ReadAtom(ts) == Some((e, rest))
    ensures Level(e) < 9 && (Stops(Level(e), rest) || Chains(e)) ==> Read(Level(e), ts) == Extend(Level(e), e, rest)
    decreases e, 0, 2
  {
    match e
    case CastTextArray(inner) =>
      ReadOperand(8, inner, ts, [TextArrayCast] + rest);
    case IsNotNull(inner) =>
      ReadOperand(2, inner, ts, [IsNotNullWords] + rest);
    case Quantified(_, _, _, _) =>
      ReadQuantified(e, ts, rest);
    case Binary(_, _, _) =>
      ReadBinary(e, ts, rest);
    case _ =>
      ReadAtomPrinted(e, ts, rest);
  }

  lemma {:induction false} ReadAtomPrinted(e: Expr, ts: Text, rest: Text)
    requires Fits(e) && Level(e) == 9
    requires ts == Print(e) + rest
    ensures ReadAtom(ts) == Some((e, rest))
    decreases e, 0, 1
  {
    hide ReadAtom, Read;
    match e
    case Paren(inner) =>
      var after := Print(inner) + [RParen] + rest;
      assert ts == [LParen] + after;
      ReadInside(inner, after, RParen, rest);
      AtomHeads(LParen, after);
    case Call(f, inner) =>
      var after := Print(inner) + [RParen] + rest;
      assert ts == [FunctionName(f), LParen] + after;
      ReadInside(inner, after, RParen, rest);
      AtomCalls(FunctionName(f), after);
    case Exists(table, cond) =>
      var after := Print(cond) + [RParen] + rest;
      assert ts == [ExistsHead(table)] + after;
      ReadInside(cond, after, RParen, rest);
      AtomHeads(ExistsHead(table), after);
    case Coalesce(_, _) =>
      ReadCoalesce(e, ts, rest);
    case _ =>
      ReadLeaf(e, ts, rest);
  }

  lemma {:induction false} ReadCoalesce(e: Expr, ts: Text, rest: Text)
    requires e.Coalesce? && Fits(e)
    requires ts == Print(e) + rest
    ensures ReadAtom(ts) == Some((e, rest))
    decreases e, 0, 0
  {
    hide ReadAtom, Read;
    var second := Print(e.fallback) + [RParen] + rest;
    var after := Print(e.e) + [Comma] + second;
    assert ts == [CoalesceWord, LParen] + after;
    ReadInside(e.e, after, Comma, second);
    ReadInside(e.fallback, second, RParen, rest);
    AtomCalls(CoalesceWord, after);
  }

  lemma ReadLeaf(e: Expr, ts: Text, rest: Text)
    requires e.BoolLit? || e.IntLit? || e.Col? || e.Param? || e.Now?
    requires ts == Print(e) + rest
    ensures ReadAtom(ts) == Some((e, rest))
  {
    assert ts[1..] == rest;
  }

  /** How atoms that open a bracket are read, one step unfolded. */
  lemma AtomHeads(head: Token, after: Text)
    requires head == LParen || head.ExistsHead?
    ensures var inner := Close(Read(0, after), RParen);
            ReadAtom([head] + after) ==
            if inner.None? then None
            else if head == LParen then Some((Paren(inner.value.0), inner.value.1))
            else Some((Exists(head.table, inner.value.0), inner.value.1))
  {
    assert ([head] + after)[1..] == after;
  }

  lemma AtomCalls(head: Token, after: Text)
    requires head == CoalesceWord || head.FunctionName?
    ensures var ts := [head, LParen] + after;
            var inner := Close(Read(0, after), if head.FunctionName? then RParen else Comma);
            ReadAtom(ts) ==
            if inner.None? then None
            else if head.FunctionName? then Some((Call(head.f, inner.value.0), inner.value.1))
            else
              var fallback := Close(Read(0, inner.value.1), RParen);
              if fallback.None? then None else Some((Coalesce(inner.value.0, fallback.value.0), fallback.value.1))
  {
    assert ([head, LParen] + after)[2..] == after;
  }

  lemma ExtendsQuantified(cmp: Comparison, word: Token, l: Expr, after: Text)
    requires word in {AnyWord, AllWord}
    ensures var arr := Close(Read(0, after), RParen);
            Extend(3, l, [Op(Cmp(cmp)), word, LParen] + after) ==
            if arr.None? then None else Some((Quantified(cmp, word.AllWord?, l, arr.value.0), arr.value.1))
  {
    assert ([Op(Cmp(cmp)), word, LParen] + after)[3..] == after;
  }

  lemma ExtendsBinary(op: BinOp, l: Expr, after: Text)
    requires after != [] && after[0] !in {AnyWord, AllWord}
    ensures var lvl := OpLevel(op);
            var right := Read(lvl + 1, after);
            Extend(lvl, l, [Op(op)] + after) ==
            if right.None? then None
            else if GroupsLeft(op) then Extend(lvl, Binary(op, l, right.value.0), right.value.1)
            else Some((Binary(op, l, right.value.0), right.value.1))
  {
    assert ([Op(op)] + after)[1..] == after;
  }

  lemma {:induction false} ReadQuantified(e: Expr, ts: Text, rest: Text)
    requires e.Quantified? && Fits(e)
    requires ts == Print(e) + rest
    ensures Stops(3, rest) ==> Read(3, ts) == Extend(3, e, rest)
    decreases e, 0, 0
  {
    var word := if e.all then AllWord else AnyWord;
    var elems := Print(e.r) + [RParen] + rest;
    var after := [Op(Cmp(e.cmp)), word, LParen] + elems;
    assert ts == Print(e.l) + after;
    ReadOperand(3, e.l, ts, after);
    ReadInside(e.r, elems, RParen, rest);
    ExtendsQuantified(e.cmp, word, e.l, elems);
  }

  lemma AtOperator(op: BinOp)
    ensures InfixLevel(Op(op)) == OpLevel(op) <= 7
  {
  }

  lemma BinaryText(e: Expr, rest: Text)
    requires e.Binary?
    ensures Print(e) + rest == Print(e.l) + ([Op(e.op)] + (Print(e.r) + rest))
  {
  }

  lemma {:induction false} ReadBinary(e: Expr, ts: Text, rest: Text)
    requires e.Binary? && Fits(e) && Stops(Level(e) + 1, rest)
    requires ts == Print(e) + rest
    ensures Stops(Level(e), rest) || Chains(e) ==> Read(Level(e), ts) == Extend(Level(e), e, rest)
    decreases e, 0, 0
  {
    hide Read, Print, InfixLevel;
    AtOperator(e.op);
    var lvl := OpLevel(e.op);
    var right := Print(e.r) + rest;
    var after := [Op(e.op)] + right;
    BinaryText(e, rest);
    ReadOperand(lvl, e.l, ts, after);
    PrintStartsWithoutQuantifier(e.r);
    ReadPrinted(lvl + 1, e.r, right, rest);
    ExtendsBinary(e.op, e.l, right);
  }

  /** The left operand of an operator at `lvl`: reading reaches the loop at that operator. */
  lemma {:induction false} ReadOperand(lvl: nat, l: Expr, ts: Text, after: Text)
    requires Fits(l) && lvl <= 8 && lvl <= Level(l)
    requires Level(l) == lvl ==> l.CastTextArray? || (l.Binary? && GroupsLeft(l.op))
    requires after != [] && InfixLevel(after[0]) == lvl
    requires ts == Print(l) + after
    ensures Read(lvl, ts) == Extend(lvl, l, after)
    decreases l, 3
  {
    if Level(l) == lvl {
      ReadAtOwnLevel(l, ts, after);
    } else {
      ReadPrinted(lvl + 1, l, ts, after);
    }
  }

  lemma {:induction false} PrintStartsWithoutQuantifier(e: Expr)
    ensures Print(e) != [] && Print(e)[0] !in {AnyWord, AllWord}
    decreases e
  {
    match e
    case CastTextArray(inner) => PrintStartsWithoutQuantifier(inner);
    case IsNotNull(inner) => PrintStartsWithoutQuantifier(inner);
    case Quantified(_, _, l, _) => PrintStartsWithoutQuantifier(l);
    case Binary(_, l, _) => PrintStartsWithoutQuantifier(l);
    case _ =>
  }

  /** The text of an expression determines the expression. */
  lemma ParsePrinted(e: Expr)
    requires Fits(e)
    ensures Parse(Print(e)) == Some(e)
  {
    assert Print(e) + [] == Print(e);
    ReadPrinted(0, e, Print(e), []);
  }

  // ---------- Placeholders of a text ----------

  function Placeholders(ts: Text): seq<nat> {
    if ts == [] then []
    else (if ts[0].Placeholder? then [ts[0].i] else []) + Placeholders(ts[1..])
  }

  lemma {:induction false} PlaceholdersAppend(a: Text, b: Text)
    ensures Placeholders(a + b) == Placeholders(a) + Placeholders(b)
  {
    if a == [] {
      assert a + b == b;
    } else {
      assert (a + b)[0] == a[0] && (a + b)[1..] == a[1..] + b;
      PlaceholdersAppend(a[1..], b);
      var head := if a[0].Placeholder? then [a[0].i] else [];
      assert head + (Placeholders(a[1..]) + Placeholders(b)) == (head + Placeholders(a[1..])) + Placeholders(b);
    }
  }

  predicate Plain(ts: Text) {
    |ts| <= 3 && forall i :: 0 <= i < |ts| ==> !ts[i].Placeholder?
  }

  lemma NoPlaceholders(ts: Text)
    requires Plain(ts)
    ensures Placeholders(ts) == []
  {
    if ts != [] {
      assert ts[1..] == [] || (ts[1..][1..] == [] || ts[1..][1..][1..] == []);
    }
  }

  lemma Around(before: Text, a: Text, between: Text, b: Text, after: Text)
    requires Plain(before) && Plain(between) && Plain(after)
    ensures Placeholders(before + a + between + b + after) == Placeholders(a) + Placeholders(b)
  {
    hide Placeholders;
    PlaceholdersAppend(before + a + between + b, after);
    PlaceholdersAppend(before + a + between, b);
    PlaceholdersAppend(before + a, between);
    PlaceholdersAppend(before, a);
    NoPlaceholders(before);
    NoPlaceholders(between);
    NoPlaceholders(after);
  }

  lemma Enclosed(before: Text, a: Text, after: Text)
    requires Plain(before) && Plain(after)
    ensures Placeholders(before + a + after) == Placeholders(a)
    ensures Placeholders(a + after) == Placeholders(a)
  {
    hide Placeholders;
    PlaceholdersAppend(before + a, after);
    PlaceholdersAppend(a, after);
    PlaceholdersAppend(before, a);
    NoPlaceholders(before);
    NoPlaceholders(after);
  }

  lemma Between(a: Text, between: Text, b: Text, after: Text)
    requires Plain(between) && Plain(after)
    ensures Placeholders(a + between + b) == Placeholders(a) + Placeholders(b)
    ensures Placeholders(a + between + b + after) == Placeholders(a) + Placeholders(b)
  {
    hide Placeholders;
    PlaceholdersAppend(a + between + b, after);
    PlaceholdersAppend(a + between, b);
    PlaceholdersAppend(a, between);
    NoPlaceholders(between);
    NoPlaceholders(after);
  }

  lemma PlaceholdersOfLeaf(e: Expr)
    requires e.Param? || e.Col? || e.BoolLit? || e.IntLit? || e.Now?
    ensures Placeholders(Print(e)) == ParamsOf(e)
  {
    assert Print(e)[1..] == [];
  }

  /** The placeholders written in a printed expression are those of the expression, in order. */
  lemma {:induction false} PlaceholdersOfPrinted(e: Expr)
    ensures Placeholders(Print(e)) == ParamsOf(e)
  {
    hide Placeholders;
    match e
    case Paren(inner) =>
      PlaceholdersOfPrinted(inner);
      Enclosed([LParen], Print(inner), [RParen]);
    case Call(f, inner) =>
      PlaceholdersOfPrinted(inner);
      Enclosed([FunctionName(f), LParen], Print(inner), [RParen]);
    case Exists(table, cond) =>
      PlaceholdersOfPrinted(cond);
      Enclosed([ExistsHead(table)], Print(cond), [RParen]);
    case CastTextArray(inner) =>
      PlaceholdersOfPrinted(inner);
      Enclosed([], Print(inner), [TextArrayCast]);
    case IsNotNull(inner) =>
      PlaceholdersOfPrinted(inner);
      Enclosed([], Print(inner), [IsNotNullWords]);
    case Coalesce(inner, fallback) =>
      PlaceholdersOfPrinted(inner);
      PlaceholdersOfPrinted(fallback);
      Around([CoalesceWord, LParen], Print(inner), [Comma], Print(fallback), [RParen]);
    case Quantified(cmp, all, l, r) =>
      PlaceholdersOfPrinted(l);
      PlaceholdersOfPrinted(r);
      Between(Print(l), [Op(Cmp(cmp)), if all then AllWord else AnyWord, LParen], Print(r), [RParen]);
    case Binary(op, l, r) =>
      PlaceholdersOfPrinted(l);
      PlaceholdersOfPrinted(r);
      Between(Print(l), [Op(op)], Print(r), []);
    case _ =>
      PlaceholdersOfLeaf(e);
  }
}
