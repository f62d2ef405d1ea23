/** LIKE patterns, and the escaping that turns a search text into one. */
module Like {
  import opened Strings

  /** LIKE with the default escape character (PostgreSQL 16, section 9.7.1). */
  predicate Like(s: string, p: string)
    decreases |p|, |s|
  {
    if p == "" then s == ""
    else if p[0] == '%' then Like(s, p[1..]) || (s != "" && Like(s[1..], p))
    else if p[0] == '_' then s != "" && Like(s[1..], p[1..])
    else if p[0] == '\\' && |p| > 1 then s != "" && s[0] == p[1] && Like(s[1..], p[2..])
    else s != "" && s[0] == p[0] && Like(s[1..], p[1..])
  }

  /** The database raises an error for a pattern ending in an unescaped escape character. */
  predicate IsPattern(p: string) {
    if p == "" then true
    else if p[0] == '\\' then |p| > 1 && IsPattern(p[2..])
    else IsPattern(p[1..])
  }

  /** `escape_like`: three whole-string replacements, backslash first. */
  function EscapeLike(s: string): string {
    ReplaceChar(ReplaceChar(ReplaceChar(s, '\\', "\\\\"), '%', "\\%"), '_', "\\_")
  }

  predicate IsSpecial(c: char) {
    c in {'\\', '%', '_'}
  }

  /** What escaping is meant to be: a backslash before each special character. */
  function EscapeChars(s: string): string {
    if s == "" then ""
    else (if IsSpecial(s[0]) then ['\\', s[0]] else [s[0]]) + EscapeChars(s[1..])
  }

  lemma {:induction false} ReplaceAppend(s: string, t: string, c: char, replacement: string)
    ensures ReplaceChar(s + t, c, replacement)
         == ReplaceChar(s, c, replacement) + ReplaceChar(t, c, replacement)
  {
    if s == "" {
      assert s + t == t;
    } else {
      assert (s + t)[1..] == s[1..] + t;
      ReplaceAppend(s[1..], t, c, replacement);
    }
  }

  lemma ReplaceShort(a: char, b: char, c: char, replacement: string)
    ensures ReplaceChar([a], c, replacement) == if a == c then replacement else [a]
    ensures ReplaceChar([a, b], c, replacement)
         == (if a == c then replacement else [a]) + (if b == c then replacement else [b])
  {
    assert [a] == [a] + [];
    assert [a][1..] == [];
    assert [a, b][1..] == [b];
    assert ReplaceChar([b], c, replacement) == if b == c then replacement else [b] by {
      assert [b][1..] == [];
    }
  }

  lemma EscapeLikeOne(a: char)
    ensures EscapeLike([a]) == if IsSpecial(a) then ['\\', a] else [a]
  {
    ReplaceShort(a, a, '\\', "\\\\");
    ReplaceShort(a, a, '%', "\\%");
    ReplaceShort(a, a, '_', "\\_");
    if a == '\\' {
      ReplaceShort('\\', '\\', '%', "\\%");
      ReplaceShort('\\', '\\', '_', "\\_");
    } else if a == '%' {
      ReplaceShort('\\', '%', '_', "\\_");
    }
  }

  lemma EscapeLikeAppend(s: string, t: string)
    ensures EscapeLike(s + t) == EscapeLike(s) + EscapeLike(t)
  {
    var s1, t1 := ReplaceChar(s, '\\', "\\\\"), ReplaceChar(t, '\\', "\\\\");
    ReplaceAppend(s, t, '\\', "\\\\");
    ReplaceAppend(s1, t1, '%', "\\%");
    ReplaceAppend(ReplaceChar(s1, '%', "\\%"), ReplaceChar(t1, '%', "\\%"), '_', "\\_");
  }

  /** The order of the three replacements is right: none escapes what an earlier one added. */
  lemma {:induction false} EscapeIsCharacterwise(s: string)
    ensures EscapeLike(s) == EscapeChars(s)
  {
    if s != "" {
      assert s == [s[0]] + s[1..];
      EscapeLikeAppend([s[0]], s[1..]);
      EscapeLikeOne(s[0]);
      EscapeIsCharacterwise(s[1..]);
    }
  }

  lemma {:induction false} EscapeCommutesWithLower(s: string)
    ensures Lower(EscapeChars(s)) == EscapeChars(Lower(s))
  {
    if s != "" {
      var head := if IsSpecial(s[0]) then ['\\', s[0]] else [s[0]];
      LowerAppend(head, EscapeChars(s[1..]));
      EscapeCommutesWithLower(s[1..]);
      assert Lower(s)[1..] == Lower(s[1..]);
    }
  }

  lemma {:induction false} EscapedIsPattern(v: string, rest: string)
    ensures IsPattern(EscapeChars(v) + rest) == IsPattern(rest)
  {
    var p := EscapeChars(v) + rest;
    if v == "" {
      assert p == rest;
    } else {
      EscapedIsPattern(v[1..], rest);
      var tail := EscapeChars(v[1..]) + rest;
      if IsSpecial(v[0]) {
        assert p == ['\\', v[0]] + tail;
        assert p[2..] == tail;
      } else {
        assert p == [v[0]] + tail;
        assert p[1..] == tail;
      }
    }
  }

  lemma {:induction false} PercentMatchesAll(s: string)
    ensures Like(s, "%")
  {
    if s != "" {
      PercentMatchesAll(s[1..]);
    } else {
      assert "%"[1..] == "";
    }
  }

  /** An escaped text followed by `%` matches exactly the strings that start with the text. */
  lemma {:induction false} EscapedPrefix(s: string, v: string)
    ensures Like(s, EscapeChars(v) + "%") <==> v <= s
  {
    var p := EscapeChars(v) + "%";
    if v == "" {
      assert p == "%";
      PercentMatchesAll(s);
    } else {
      var tail := EscapeChars(v[1..]) + "%";
      if IsSpecial(v[0]) {
        assert p == ['\\', v[0]] + tail;
        assert p[2..] == tail;
      } else {
        assert p == [v[0]] + tail;
        assert p[1..] == tail;
      }
      assert Like(s, p) == (s != "" && s[0] == v[0] && Like(s[1..], tail));
      if s != "" {
        EscapedPrefix(s[1..], v[1..]);
        assert v <= s <==> v[0] == s[0] && v[1..] <= s[1..] by {
          assert v == [v[0]] + v[1..] && s == [s[0]] + s[1..];
        }
      }
    }
  }

  lemma {:induction false} EscapedInfix(s: string, v: string)
    ensures Like(s, "%" + (EscapeChars(v) + "%")) <==> Contains(s, v)
    decreases |s|
  {
    var p := "%" + (EscapeChars(v) + "%");
    assert p[1..] == EscapeChars(v) + "%";
    EscapedPrefix(s, v);
    if s != "" {
      EscapedInfix(s[1..], v);
    }
  }

  /** The pattern bound for a `contains` condition. */
  function ContainsPattern(v: string): string {
    "%" + EscapeLike(v) + "%"
  }

  /**
   * The compiled `contains`: LOWER(s) LIKE LOWER('%' + escape_like(v) + '%') never raises and
   * holds exactly when the lowercased text contains the lowercased value, whatever v spells.
   */
  lemma ContainsPatternIsExact(s: string, v: string)
    ensures IsPattern(Lower(ContainsPattern(v)))
    ensures Like(Lower(s), Lower(ContainsPattern(v))) <==> Contains(Lower(s), Lower(v))
  {
    EscapeIsCharacterwise(v);
    EscapeCommutesWithLower(v);
    var p := "%" + (EscapeChars(Lower(v)) + "%");
    assert Lower(ContainsPattern(v)) == p by {
      LowerAppend("%" + EscapeChars(v), "%");
      LowerAppend("%", EscapeChars(v));
    }
    EscapedInfix(Lower(s), Lower(v));
    EscapedIsPattern(Lower(v), "%");
    assert p[1..] == EscapeChars(Lower(v)) + "%";
    assert "%"[1..] == "";
  }
}
