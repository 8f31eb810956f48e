/**
 What expanding a template yields, told by its text: plain text, references and lone braces
 between them make up every template.
 */
module Templates {
  import opened Glob

  predicate NameByte(c: char)
  {
    'A' <= c <= 'Z' || 'a' <= c <= 'z' || '0' <= c <= '9' || c in {'_', '.', '-'}
  }

  predicate NameBytes(s: string) { forall i :: 0 <= i < |s| ==> NameByte(s[i]) }

  /** The text begins with a byte that no name contains, or is empty. */
  predicate EndsName(rest: string) { rest == "" || !NameByte(rest[0]) }

  lemma {:induction false} NameLenIs(name: string, rest: string)
    requires NameBytes(name) && EndsName(rest)
    ensures NameLen(name + rest) == |name|
  {
    if name == "" {
      assert name + rest == rest;
    } else {
      NameLenIs(name[1..], rest);
      assert (name + rest)[1..] == name[1..] + rest;
    }
  }

  lemma KeepsByte(c: char, t: string, vars: Vars, escape: bool)
    requires !IsRef([c] + t)
    ensures Expanded([c] + t, vars, escape) == [c] + Expanded(t, vars, escape) && Names([c] + t) == Names(t)
  {
    assert ([c] + t)[1..] == t;
  }

  /** Text without a brace stays as it is. */
  lemma {:induction false} KeepsText(a: string, rest: string, vars: Vars, escape: bool)
    requires '{' !in a
    ensures Expanded(a + rest, vars, escape) == a + Expanded(rest, vars, escape)
    ensures Names(a + rest) == Names(rest)
  {
    if a == "" {
      assert a + rest == rest;
    } else {
      KeepsText(a[1..], rest, vars, escape);
      assert a + rest == [a[0]] + (a[1..] + rest);
      KeepsByte(a[0], a[1..] + rest, vars, escape);
      Reassociate([a[0]], a[1..], Expanded(rest, vars, escape));
    }
  }

  /** A reference becomes the value of its name, as it is or escaped, and refers to that name. */
  lemma ReplacesReference(name: string, rest: string, vars: Vars, escape: bool)
    requires name != "" && NameBytes(name) && name in vars
    ensures var s, v := "{" + name + "}" + rest, vars[name];
            && Expanded(s, vars, escape) == (if escape then Escaped(v) else v) + Expanded(rest, vars, escape)
            && Names(s) == {name} + Names(rest)
  {
    ReferenceIs(name, rest);
  }

  lemma ReferenceIs(name: string, rest: string)
    requires name != "" && NameBytes(name)
    ensures var s := "{" + name + "}" + rest;
            IsRef(s) && RefName(s) == name && AfterRef(s) == rest
  {
    var s := "{" + name + "}" + rest;
    NameLenIs(name, "}" + rest);
    assert s[1..] == name + ("}" + rest);
    assert s[1..|name| + 1] == name && s[|name| + 2..] == rest;
  }

  /** The names a template refers to do not depend on what is bound. */
  lemma ReferenceNames(name: string, rest: string)
    requires name != "" && NameBytes(name)
    ensures Names("{" + name + "}" + rest) == {name} + Names(rest)
  {
    ReferenceIs(name, rest);
  }

  /** A brace that begins no reference stays as it is. */
  lemma KeepsBrace(name: string, rest: string, vars: Vars, escape: bool)
    requires NameBytes(name) && EndsName(rest) && (name == "" || rest == "" || rest[0] != '}')
    ensures var s := "{" + name + rest;
            Expanded(s, vars, escape) == "{" + name + Expanded(rest, vars, escape) && Names(s) == Names(rest)
  {
    LoneBrace(name, rest);
    Reassociate("{", name, rest);
    KeepsByte('{', name + rest, vars, escape);
    KeepsText(name, rest, vars, escape);
    Reassociate("{", name, Expanded(rest, vars, escape));
  }

  lemma LoneBrace(name: string, rest: string)
    requires NameBytes(name) && EndsName(rest) && (name == "" || rest == "" || rest[0] != '}')
    ensures !IsRef("{" + (name + rest))
  {
    var s := "{" + (name + rest);
    NameLenIs(name, rest);
    assert s[1..] == name + rest;
  }

  // ---------------------------------------------------------------- the two modes

  lemma {:induction false} NoBackslashGuarded(s: string)
    requires '\\' !in s
    ensures Guarded(s)
    decreases |s|
  {
    if s != "" {
      if IsRef(s) {
        NoBackslashGuarded(AfterRef(s));
      } else {
        NoBackslashGuarded(s[1..]);
      }
    }
  }

  lemma LitsConcat(a: string, b: string)
    ensures Lits(a + b) == Lits(a) + Lits(b)
  {
  }

  lemma {:induction false} PlainTokens(s: string, vars: Vars)
    requires '*' !in s && '\\' !in s
    ensures TemplateTokens(s, vars) == Lits(Expanded(s, vars, false))
    decreases |s|
  {
    if s != "" {
      if IsRef(s) {
        PlainTokens(AfterRef(s), vars);
        LitsConcat(ValueOf(vars, RefName(s)), Expanded(AfterRef(s), vars, false));
      } else {
        PlainTokens(s[1..], vars);
        LitsConcat([s[0]], Expanded(s[1..], vars, false));
        assert Lits([s[0]]) == [Lit(s[0])];
      }
    }
  }

  /** The two modes agree: read as a pattern, the escaped expansion of a template without
      wildcards matches the unescaped expansion and nothing else. */
  lemma ModesAgree(s: string, vars: Vars, str: string)
    requires '*' !in s && '\\' !in s
    ensures GlobMatch(Expanded(s, vars, true), str) <==> str == Expanded(s, vars, false)
  {
    var plain := Expanded(s, vars, false);
    NoBackslashGuarded(s);
    GuardedExpansion(s, vars);
    PlainTokens(s, vars);
    assert Lits(plain) + [] == Lits(plain);
    LitsPrefix(plain, [], str);
  }
}
