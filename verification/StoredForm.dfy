/** What the editor may send for a value, and what each such value is stored as. */
module StoredForm {
  import opened Wrappers
  import opened Strings
  import opened Json
  import opened Rules
  import opened ConditionEval

  // ---------- Strings ----------

  predicate AllWhitespace(s: string) {
    forall i :: 0 <= i < |s| ==> IsWhitespace(s[i])
  }

  lemma {:induction false} TrimStartCuts(s: string) returns (n: nat)
    ensures n <= |s| && AllWhitespace(s[..n]) && TrimStart(s) == s[n..]
  {
    if s != "" && IsWhitespace(s[0]) {
      n := TrimStartCuts(s[1..]);
      MoreBlankBefore(s, n);
      n := n + 1;
    } else {
      n := 0;
    }
  }

  lemma MoreBlankBefore(s: string, n: nat)
    requires s != "" && n <= |s[1..]| && IsWhitespace(s[0]) && AllWhitespace(s[1..][..n])
    ensures AllWhitespace(s[..n + 1]) && s[1..][n..] == s[n + 1..]
  {
    hide IsWhitespace;
    var head := s[..n + 1];
    forall i | 0 <= i < |head|
      ensures IsWhitespace(head[i])
    {
      assert i > 0 ==> head[i] == s[1..][..n][i - 1];
    }
  }

  lemma {:induction false} TrimEndCuts(s: string) returns (n: nat)
    ensures n <= |s| && AllWhitespace(s[n..]) && TrimEnd(s) == s[..n]
  {
    if s != "" && IsWhitespace(s[|s| - 1]) {
      n := TrimEndCuts(s[..|s| - 1]);
      MoreBlankBehind(s, n);
    } else {
      n := |s|;
    }
  }

  lemma MoreBlankBehind(s: string, n: nat)
    requires s != "" && n <= |s| - 1 && IsWhitespace(s[|s| - 1]) && AllWhitespace(s[..|s| - 1][n..])
    ensures AllWhitespace(s[n..]) && s[..|s| - 1][..n] == s[..n]
  {
    hide IsWhitespace;
    var tail := s[n..];
    forall i | 0 <= i < |tail|
      ensures IsWhitespace(tail[i])
    {
      assert i < |tail| - 1 ==> tail[i] == s[..|s| - 1][n..][i];
    }
  }

  /** Trimming cuts whitespace off both ends, all of it and nothing else. */
  lemma TrimTells(s: string) returns (i: nat, j: nat)
    ensures IsTrimmed(Trim(s))
    ensures i <= j <= |s| && AllWhitespace(s[..i]) && AllWhitespace(s[j..]) && Trim(s) == s[i..j]
  {
    TrimIdempotent(s);
    hide AllWhitespace, IsTrimmed, TrimStart, TrimEnd;
    i := TrimStartCuts(s);
    var n := TrimEndCuts(s[i..]);
    j := i + n;
    assert s[i..][n..] == s[j..] && s[i..][..n] == s[i..j];
  }

  function JoinWith(pieces: seq<string>, sep: char): string {
    if pieces == [] then ""
    else if |pieces| == 1 then pieces[0]
    else pieces[0] + [sep] + JoinWith(pieces[1..], sep)
  }

  /** Splitting is undone by joining, and no piece holds the separator. */
  lemma {:induction false} SplitTells(s: string, sep: char)
    ensures JoinWith(Split(s, sep), sep) == s
    ensures forall p :: p in Split(s, sep) ==> sep !in p
  {
    if s != "" {
      SplitTells(s[1..], sep);
      var rest := Split(s[1..], sep);
      assert rest == [rest[0]] + rest[1..];
      assert s == [s[0]] + s[1..];
      if s[0] == sep {
        assert ([""] + rest)[1..] == rest;
      } else {
        assert ([[s[0]] + rest[0]] + rest[1..])[1..] == rest[1..];
      }
    }
  }

  // ---------- Numbers ----------

  function DigitsOf(n: nat): (s: string)
    ensures s != ""
  {
    var digit := [('0' as int + n % 10) as char];
    if n < 10 then digit else DigitsOf(n / 10) + digit
  }

  /** An integer as it is usually written. */
  function IntText(n: int): string {
    if n < 0 then "-" + DigitsOf(-n) else DigitsOf(n)
  }

  lemma {:induction false} DigitsRead(n: nat)
    ensures AllDigits(DigitsOf(n)) && DigitsValue(DigitsOf(n)) == n
  {
    var digit := [('0' as int + n % 10) as char];
    if n < 10 {
      assert digit[..0] == "";
    } else {
      DigitsRead(n / 10);
      assert (DigitsOf(n / 10) + digit)[..|DigitsOf(n / 10)|] == DigitsOf(n / 10);
    }
  }

  /** A written integer is read as that integer. */
  lemma WrittenIntIsRead(n: I64)
    ensures ParseI64(IntText(n)) == Some(n)
  {
    var magnitude: int := if n < 0 then -(n as int) else n;
    DigitsRead(magnitude);
    assert DigitsOf(magnitude)[0] !in {'+', '-'};
    assert ("-" + DigitsOf(magnitude))[1..] == DigitsOf(magnitude);
  }

  /** The text is an optional sign and decimal digits, and n is their value. */
  predicate WritesInt(s: string, n: int) {
    var digits := if s != "" && s[0] in {'+', '-'} then s[1..] else s;
    && digits != "" && AllDigits(digits)
    && n == (if s[0] == '-' then -(DigitsValue(digits) as int) else DigitsValue(digits))
  }

  /** n is r without its fraction, or the end of the 64-bit range that r lies beyond. */
  predicate TruncatesTo(r: real, n: I64) {
    if r >= I64_MAX as real then n == I64_MAX
    else if r <= I64_MIN as real then n == I64_MIN
    else if r >= 0.0 then n as real <= r < n as real + 1.0
    else n as real - 1.0 < r <= n as real
  }

  // ---------- Lists ----------

  predicate InList(v: Value) {
    v != Null && v != Str("")
  }

  /** How many of the first n elements are neither null nor an empty text. */
  function KeptBefore(elems: seq<Value>, n: nat): (kept: nat)
    requires n <= |elems|
    ensures kept <= n
  {
    if n == 0 then 0 else KeptBefore(elems, n - 1) + (if InList(elems[n - 1]) then 1 else 0)
  }

  /** The list holds those elements and no others, each behind as many as come before it. */
  predicate ElemsOf(elems: seq<Value>, list: seq<Value>) {
    && |list| == KeptBefore(elems, |elems|)
    && forall i :: 0 <= i < |elems| && InList(elems[i]) ==>
         KeptBefore(elems, i) < |list| && list[KeptBefore(elems, i)] == elems[i]
  }

  /** The pieces between the commas, trimmed. */
  function TrimmedItems(pieces: seq<string>): seq<Value> {
    seq(|pieces|, i requires 0 <= i < |pieces| => Str(Trim(pieces[i])))
  }

  // ---------- Values ----------

  predicate StoredBool(raw: Value, v: Value) {
    && v.Bool?
    && match raw
       case Bool(b) => v.b == b
       case Str(s) =>
         var word := Lower(Trim(s));
         if v.b then word in {"true", "1", "yes"} else word in {"false", "0", "no"}
       case _ => false
  }

  /** An integer in its usual form: a sign only when it is negative. */
  predicate IsInt(v: Value, n: int) {
    I64_MIN <= n <= I64_MAX && v == Number(if n >= 0 then PosInt(n) else NegInt(n))
  }

  predicate IntSent(raw: Value, n: I64) {
    match raw
    case Number(PosInt(u)) => n == if u <= I64_MAX then u else I64_MAX
    case Number(NegInt(i)) => n == i
    case Number(Float(r)) => TruncatesTo(r, n)
    case Str(s) => WritesInt(Trim(s), n)
    case _ => false
  }

  ghost predicate StoredInt(raw: Value, v: Value) {
    exists n: I64 :: IsInt(v, n) && IntSent(raw, n)
  }

  predicate StoredText(host: Host, raw: Value, v: Value) {
    match raw
    case Str(s) => v == raw && Trim(s) != ""
    case Number(n) => v == Str(host.numberText(n))
    case Bool(b) => v == Str(if b then "true" else "false")
    case _ => false
  }

  predicate StoredList(raw: Value, v: Value) {
    && v.Array? && v.elems != []
    && match raw
       case Array(elems) => ElemsOf(elems, v.elems)
       case Str(s) => ElemsOf(TrimmedItems(Split(s, ',')), v.elems)
       case Null => false
       case _ => v.elems == [raw]
  }

  ghost predicate StoredValue(host: Host, kind: TargetKind, op: Operator, raw: Value, v: Value) {
    match kind
    case BoolKind => StoredBool(raw, v)
    case IntKind => StoredInt(raw, v)
    case StringKind => if op == In || op == NotIn then StoredList(raw, v) else StoredText(host, raw, v)
  }

  /** The operators each kind of target takes; a membership takes equality only. */
  predicate Legal(t: Target, op: Operator) {
    match t.Kind()
    case BoolKind => op == Eq
    case IntKind => op in {Eq, Neq, Gt, Gte, Lt, Lte, Between}
    case StringKind =>
      if t == IsOnList || t == IsOnStarterPack then op == Eq
      else op in {Eq, Neq, Operator.Contains, Regex, In, NotIn}
  }
}
