/**
 * A reference semantics for placeholder resolution, independent of the scanning
 * and replacing steps: a configuration value written as a list of literal pieces
 * and placeholder pieces, where resolving a placeholder means putting the value of
 * the first environment entry with its name in its place. When neither the literal
 * text nor the substituted values contain '$', the two passes of `ConfigData`
 * compute exactly this, and fail or warn exactly for the placeholders whose name is
 * not in the environment.
 */
module Templates {
  import opened Placeholders
  import opened Resolution

  datatype Piece = Lit(text: string) | Ref(kind: Kind, name: string)

  function RenderPiece(x: Piece): string
  {
    match x
    case Lit(t) => t
    case Ref(k, n) => Token(k, n)
  }

  /** The configuration text the pieces spell. */
  function Render(p: seq<Piece>): string
  {
    if p == [] then "" else RenderPiece(p[0]) + Render(p[1..])
  }

  predicate PieceOk(x: Piece)
  {
    match x
    case Lit(t) => '$' !in t
    case Ref(_, n) => IsIdent(n)
  }

  /** Literal text holds no '$' and every placeholder name is an identifier. */
  predicate WellFormed(p: seq<Piece>)
  {
    forall i | 0 <= i < |p| :: PieceOk(p[i])
  }

  /** The names of the placeholders of kind `k`, in order, duplicates kept. */
  function RefNames(p: seq<Piece>, k: Kind): seq<string>
  {
    if p == [] then []
    else (if p[0].Ref? && p[0].kind == k then [p[0].name] else []) + RefNames(p[1..], k)
  }

  /** The value of the first environment entry named `n`. */
  function Lookup(env: Environment, n: string): Option<string>
  {
    if env == [] then None
    else if env[0].0 == n then Some(env[0].1)
    else Lookup(env[1..], n)
  }

  function ExpandPiece(x: Piece, env: Environment, k: Kind): Piece
  {
    if x.Ref? && x.kind == k && Lookup(env, x.name).Some? then Lit(Lookup(env, x.name).value) else x
  }

  /** Every placeholder of kind `k` whose name the environment holds becomes its value. */
  function Expand(p: seq<Piece>, env: Environment, k: Kind): (r: seq<Piece>)
    ensures |r| == |p|
    ensures forall i | 0 <= i < |p| :: r[i] == ExpandPiece(p[i], env, k)
  {
    if p == [] then [] else [ExpandPiece(p[0], env, k)] + Expand(p[1..], env, k)
  }

  /** The names of the placeholders of kind `k` that the environment does not hold, in order, duplicates kept. */
  function Missing(p: seq<Piece>, env: Environment, k: Kind): seq<string>
  {
    if p == [] then []
    else
      (if p[0].Ref? && p[0].kind == k && Lookup(env, p[0].name).None? then [p[0].name] else [])
      + Missing(p[1..], env, k)
  }

  /** The value substituted for any placeholder of kind `k` in `p` contains no '$'. */
  ghost predicate SafeValues(p: seq<Piece>, env: Environment, k: Kind)
  {
    forall n | n in RefNames(p, k) && Lookup(env, n).Some? :: '$' !in Lookup(env, n).value
  }

  lemma {:induction false} RefNamesMembership(p: seq<Piece>, k: Kind, n: string)
    ensures n in RefNames(p, k) <==> exists i | 0 <= i < |p| :: p[i] == Ref(k, n)
  {
    if p != [] {
      RefNamesMembership(p[1..], k, n);
      if exists i | 0 <= i < |p| :: p[i] == Ref(k, n) {
        var i :| 0 <= i < |p| && p[i] == Ref(k, n);
        if i > 0 {
          assert p[1..][i - 1] == Ref(k, n);
        }
      }
      if exists i | 0 <= i < |p[1..]| :: p[1..][i] == Ref(k, n) {
        var i :| 0 <= i < |p[1..]| && p[1..][i] == Ref(k, n);
        assert p[i + 1] == Ref(k, n);
      }
    }
  }

  lemma LookupSingle(e: (string, string), n: string)
    ensures Lookup([e], n) == if e.0 == n then Some(e.1) else None
  {
    assert [e][1..] == [];
  }

  /** An entry appended at the end is consulted only when no earlier entry has the name. */
  lemma {:induction false} LookupAppend(env: Environment, e: (string, string), n: string)
    ensures Lookup(env + [e], n)
         == if Lookup(env, n).Some? then Lookup(env, n) else if e.0 == n then Some(e.1) else None
  {
    if env != [] {
      assert (env + [e])[1..] == env[1..] + [e];
      LookupAppend(env[1..], e, n);
    } else {
      assert env + [e] == [e];
    }
  }

  /** Scanning the rendered text finds exactly the placeholders of the pieces. */
  lemma {:induction false} NamesOfRender(p: seq<Piece>, k: Kind)
    requires WellFormed(p)
    ensures Names(Render(p), k) == RefNames(p, k)
  {
    if p != [] {
      assert PieceOk(p[0]);
      NamesOfRender(p[1..], k);
      match p[0]
      case Lit(t) => NamesDollarFreePrefix(t, Render(p[1..]), k);
      case Ref(k', n) => NamesAtToken(k', n, Render(p[1..]), k);
    }
  }

  /** Replacing one placeholder token in the rendered text resolves exactly the placeholders with that name. */
  lemma {:induction false} ReplaceOfRender(p: seq<Piece>, k: Kind, name: string, v: string)
    requires WellFormed(p) && IsIdent(name)
    ensures Replace(Render(p), Token(k, name), v) == Render(Expand(p, [(name, v)], k))
  {
    if p != [] {
      assert PieceOk(p[0]);
      ReplaceOfRender(p[1..], k, name, v);
      var q := Expand(p, [(name, v)], k);
      assert q[1..] == Expand(p[1..], [(name, v)], k);
      match p[0]
      case Lit(t) =>
        TokenDollarOnlyAtStart(k, name);
        ReplaceDollarFreePrefix(t, Render(p[1..]), Token(k, name), v);
      case Ref(k', n) =>
        LookupSingle((name, v), n);
        ReplaceAtToken(k', n, Render(p[1..]), k, name, v);
    }
  }

  /** Expanding with a one-entry environment after `env` is expanding with `env` extended by that entry. */
  lemma ExpandAppend(p: seq<Piece>, env: Environment, e: (string, string), k: Kind)
    ensures Expand(Expand(p, env, k), [e], k) == Expand(p, env + [e], k)
  {
    forall i | 0 <= i < |p|
      ensures Expand(Expand(p, env, k), [e], k)[i] == Expand(p, env + [e], k)[i]
    {
      if p[i].Ref? {
        LookupAppend(env, e, p[i].name);
        LookupSingle(e, p[i].name);
      }
    }
  }

  /** An entry whose name no placeholder of kind `k` uses does not change the expansion. */
  lemma ExpandAppendUnused(p: seq<Piece>, env: Environment, e: (string, string), k: Kind)
    requires e.0 !in RefNames(p, k)
    ensures Expand(p, env + [e], k) == Expand(p, env, k)
  {
    forall i | 0 <= i < |p| ensures Expand(p, env + [e], k)[i] == Expand(p, env, k)[i] {
      if p[i].Ref? {
        LookupAppend(env, e, p[i].name);
        if p[i].kind == k {
          RefNamesMembership(p, k, p[i].name);
        }
      }
    }
  }

  lemma ExpandWellFormed(p: seq<Piece>, env: Environment, k: Kind)
    requires WellFormed(p) && SafeValues(p, env, k)
    ensures WellFormed(Expand(p, env, k))
  {
    forall i | 0 <= i < |p| ensures PieceOk(Expand(p, env, k)[i]) {
      assert PieceOk(p[i]);
      if p[i].Ref? && p[i].kind == k {
        RefNamesMembership(p, k, p[i].name);
      }
    }
  }

  lemma ExpandNothing(p: seq<Piece>, k: Kind)
    ensures Expand(p, [], k) == p
  {
  }

  /** The placeholders left after expansion are exactly the missing ones. */
  lemma {:induction false} MissingAreUnexpanded(p: seq<Piece>, env: Environment, k: Kind)
    ensures RefNames(Expand(p, env, k), k) == Missing(p, env, k)
  {
    if p != [] {
      var q := Expand(p, env, k);
      assert q[1..] == Expand(p[1..], env, k);
      MissingAreUnexpanded(p[1..], env, k);
    }
  }

  /** Expanding one kind leaves every placeholder of the other kind where it was. */
  lemma {:induction false} ExpandKeepsOtherKind(p: seq<Piece>, env: Environment, k: Kind, k': Kind)
    requires k != k'
    ensures RefNames(Expand(p, env, k), k') == RefNames(p, k')
  {
    if p != [] {
      var q := Expand(p, env, k);
      assert q[1..] == Expand(p[1..], env, k);
      ExpandKeepsOtherKind(p[1..], env, k, k');
    }
  }

  /**
   * The `foreach` over the environment, applied to rendered text whose collected
   * names are those of the pieces, yields the rendering of the expansion.
   */
  lemma {:induction false} SubstitutedRender(p: seq<Piece>, env: Environment, keys: seq<string>, k: Kind)
    requires WellFormed(p) && SafeValues(p, env, k)
    requires forall n :: n in keys <==> n in RefNames(p, k)
    ensures Substituted(Render(p), env, keys, k) == Render(Expand(p, env, k))
    decreases |env|
  {
    if env == [] {
      ExpandNothing(p, k);
    } else {
      var init := env[..|env| - 1];
      var e := env[|env| - 1];
      assert env == init + [e];
      assert SafeValues(p, init, k) by {
        forall n | n in RefNames(p, k) && Lookup(init, n).Some? ensures '$' !in Lookup(init, n).value {
          LookupAppend(init, e, n);
        }
      }
      SubstitutedRender(p, init, keys, k);
      var q := Expand(p, init, k);
      if e.0 in keys {
        ExpandWellFormed(p, init, k);
        forall x | x in RefNames(p, k) ensures IsIdent(x) {
          RefNamesMembership(p, k, x);
          var i :| 0 <= i < |p| && p[i] == Ref(k, x);
          assert PieceOk(p[i]);
        }
        ReplaceOfRender(q, k, e.0, e.1);
        ExpandAppend(p, init, e, k);
      } else {
        ExpandAppendUnused(p, init, e, k);
      }
    }
  }

  /** The text the replace step of a pass produces from a rendering. */
  lemma SubstituteRender(p: seq<Piece>, env: Environment, k: Kind)
    requires WellFormed(p) && SafeValues(p, env, k)
    ensures Substitute(Render(p), env, k) == Render(Expand(p, env, k))
    ensures Names(Render(Expand(p, env, k)), k) == Missing(p, env, k)
  {
    NamesOfRender(p, k);
    SubstitutedRender(p, env, Distinct(Names(Render(p), k)), k);
    ExpandWellFormed(p, env, k);
    NamesOfRender(Expand(p, env, k), k);
    MissingAreUnexpanded(p, env, k);
  }

  /**
   * The mandatory pass on well-formed text: it returns the expansion when every
   * mandatory placeholder's name is in the environment, and otherwise fails with a
   * message naming exactly the missing ones.
   */
  lemma MandatoryPassOfRender(p: seq<Piece>, env: Environment)
    requires WellFormed(p) && SafeValues(p, env, Mandatory)
    ensures var missing := Missing(p, env, Mandatory);
      MandatoryPass(Render(p), env)
        == if missing == [] then Logged(Ok(Render(Expand(p, env, Mandatory))), [])
           else Logged(Err(InvalidConfigurationException("Environment variables not found: , " + Concat(missing))),
                       [Error("Environment variables not found", ", " + Concat(missing))])
  {
    SubstituteRender(p, env, Mandatory);
    MandatoryPassOutcome(Render(p), env);
    NamesEmptyIff(Render(Expand(p, env, Mandatory)), Mandatory);
  }

  /**
   * The optional pass on well-formed text: it returns the expansion, in which every
   * optional placeholder whose name is not in the environment stays verbatim, and
   * warns naming exactly those.
   */
  lemma OptionalPassOfRender(p: seq<Piece>, env: Environment)
    requires WellFormed(p) && SafeValues(p, env, Optional)
    ensures var missing := Missing(p, env, Optional);
      OptionalPass(Render(p), env)
        == Logged(Render(Expand(p, env, Optional)),
                  if missing == [] then [] else [Warn("Environment variables not found", ", " + Concat(missing))])
  {
    SubstituteRender(p, env, Optional);
    OptionalPassOutcome(Render(p), env);
    NamesEmptyIff(Render(Expand(p, env, Optional)), Optional);
  }

  /** A mandatory expansion leaves the optional placeholders and their lookups as they were. */
  lemma MandatoryExpansionKeepsOptional(p: seq<Piece>, env: Environment)
    requires WellFormed(p) && SafeValues(p, env, Mandatory) && SafeValues(p, env, Optional)
    ensures var q := Expand(p, env, Mandatory);
      && WellFormed(q) && SafeValues(q, env, Optional)
      && Missing(q, env, Optional) == Missing(p, env, Optional)
  {
    var q := Expand(p, env, Mandatory);
    ExpandWellFormed(p, env, Mandatory);
    ExpandKeepsOtherKind(p, env, Mandatory, Optional);
    MissingOfOtherKind(p, env, Mandatory, Optional);
  }

  lemma {:induction false} MissingOfOtherKind(p: seq<Piece>, env: Environment, k: Kind, k': Kind)
    requires k != k'
    ensures Missing(Expand(p, env, k), env, k') == Missing(p, env, k')
  {
    if p != [] {
      var q := Expand(p, env, k);
      assert q[1..] == Expand(p[1..], env, k);
      MissingOfOtherKind(p[1..], env, k, k');
    }
  }

  /**
   * `ReplaceEnvironmentVariables` against the reference semantics: on well-formed
   * text it fails exactly when a mandatory placeholder's name is missing from the
   * environment, naming all of them; otherwise it returns the text with every
   * placeholder whose name the environment holds replaced by that entry's value,
   * every other optional placeholder verbatim, and a warning naming those.
   */
  lemma ResolveOfRender(p: seq<Piece>, env: Environment)
    requires WellFormed(p) && SafeValues(p, env, Mandatory) && SafeValues(p, env, Optional)
    ensures var mm := Missing(p, env, Mandatory);
            var om := Missing(p, env, Optional);
      Resolve(Render(p), env)
        == if mm != [] then
             Logged(Err(InvalidConfigurationException("Environment variables not found: , " + Concat(mm))),
                    [Error("Environment variables not found", ", " + Concat(mm))])
           else
             Logged(Ok(Render(Expand(Expand(p, env, Mandatory), env, Optional))),
                    if om == [] then [] else [Warn("Environment variables not found", ", " + Concat(om))])
  {
    var q := Expand(p, env, Mandatory);
    MandatoryPassOfRender(p, env);
    MandatoryExpansionKeepsOptional(p, env);
    OptionalPassOfRender(q, env);
    if Render(p) == "" {
      DollarFreeIsFree("", Mandatory);
      DollarFreeIsFree("", Optional);
      ResolveWithoutPlaceholders("", env);
    }
  }

  lemma {:induction false} LookupNoneIsUnset(env: Environment, n: string)
    ensures Lookup(env, n).None? <==> Unset(env, n)
  {
    if env != [] {
      LookupNoneIsUnset(env[1..], n);
      assert forall i | 1 <= i < |env| :: env[i] == env[1..][i - 1];
    }
  }

  /** Resolution when every placeholder's name is in the environment: nothing thrown, nothing logged. */
  lemma ResolveOfRenderAllSet(p: seq<Piece>, env: Environment)
    requires WellFormed(p) && SafeValues(p, env, Mandatory) && SafeValues(p, env, Optional)
    requires Missing(p, env, Mandatory) == [] && Missing(p, env, Optional) == []
    ensures Resolve(Render(p), env) == Logged(Ok(Render(Expand(Expand(p, env, Mandatory), env, Optional))), [])
  {
    ResolveOfRender(p, env);
  }

  /** With one name collected, entries that do not carry it leave the text alone. */
  lemma {:induction false} SubstitutedUnsetKey(s: string, env: Environment, n: string, k: Kind)
    requires Unset(env, n)
    ensures Substituted(s, env, [n], k) == s
    decreases |env|
  {
    if env != [] {
      var init := env[..|env| - 1];
      assert Unset(init, n) by {
        forall i | 0 <= i < |init| ensures init[i].0 != n {
          assert init[i] == env[i];
        }
      }
      SubstitutedUnsetKey(s, init, n, k);
      assert env[|env| - 1].0 != n;
    }
  }

  /**
   * With one name collected, the `foreach` comes down to the first entry carrying it,
   * as long as that entry's replacement leaves no placeholder of the kind for the later
   * entries with the same name to rewrite.
   */
  lemma {:induction false} SubstitutedFirstEntry(s: string, env: Environment, n: string, k: Kind, w: string)
    requires IsIdent(n) && Lookup(env, n).Some? && Free(w, k)
    requires Replace(s, Token(k, n), Lookup(env, n).value) == w
    ensures Substituted(s, env, [n], k) == w
    decreases |env|
  {
    var init, e := env[..|env| - 1], env[|env| - 1];
    assert env == init + [e];
    LookupAppend(init, e, n);
    if Lookup(init, n).Some? {
      SubstitutedFirstEntry(s, init, n, k, w);
      if e.0 == n {
        ReplaceInFree(w, k, n, e.1);
      }
    } else {
      LookupNoneIsUnset(init, n);
      SubstitutedUnsetKey(s, init, n, k);
    }
  }

  /**
   * `"${NAME}"` with NAME=V becomes V, for every V that holds no placeholder of either
   * kind, whatever other characters (a stray '$' among them) it contains.
   */
  lemma SinglePlaceholder(name: string, v: string, env: Environment)
    requires IsIdent(name) && Lookup(env, name) == Some(v)
    requires Free(v, Mandatory) && Free(v, Optional)
    ensures Resolve(Token(Mandatory, name), env) == Logged(Ok(v), [])
  {
    var t := Token(Mandatory, name);
    TokenDollarOnlyAtStart(Mandatory, name);
    assert t + "" == t && v + "" == v;
    NamesAtToken(Mandatory, name, "", Mandatory);
    assert Names(t, Mandatory) == [name];
    assert Distinct([name]) == [name] by { assert [name][..0] == []; }
    ReplaceAtToken(Mandatory, name, "", Mandatory, name, v);
    assert Replace(t, t, v) == v;
    SubstitutedFirstEntry(t, env, name, Mandatory, v);
    MandatoryPassOutcome(t, env);
    SubstituteWithoutPlaceholders(v, env, Optional);
    OptionalPassOutcome(v, env);
  }

  /** Scanning `"${NAME}${NAME}"` collects NAME once. */
  lemma TwiceCollectsOnce(name: string)
    requires IsIdent(name)
    ensures var t := Token(Mandatory, name);
      Names(t + t, Mandatory) == [name, name] && Distinct(Names(t + t, Mandatory)) == [name]
  {
    var t := Token(Mandatory, name);
    assert t + "" == t;
    NamesAtToken(Mandatory, name, "", Mandatory);
    NamesAtToken(Mandatory, name, t, Mandatory);
    DistinctOfTwice(name);
  }

  lemma DistinctOfTwice(name: string)
    ensures Distinct([name, name]) == [name]
  {
    assert [name][..0] == [];
    assert Distinct([name]) == [name];
    assert [name, name][..1] == [name];
  }

  /** Replacing `${NAME}` in `"${NAME}${NAME}"` puts the value in both places. */
  lemma ReplaceTwice(name: string, v: string)
    requires IsIdent(name)
    ensures var t := Token(Mandatory, name); Replace(t + t, t, v) == v + v
  {
    var t := Token(Mandatory, name);
    assert t + "" == t && v + "" == v;
    ReplaceAtToken(Mandatory, name, t, Mandatory, name, v);
    ReplaceAtToken(Mandatory, name, "", Mandatory, name, v);
  }

  /**
   * `"${NAME}${NAME}"` with NAME=V becomes V+V: every occurrence is substituted. The
   * code re-scans the whole of V+V, so this needs V+V, not only V, to hold no placeholder
   * (`RepeatedValueRescanned` shows a V for which the two differ).
   */
  lemma RepeatedPlaceholder(name: string, v: string, env: Environment)
    requires IsIdent(name) && Lookup(env, name) == Some(v)
    requires Free(v + v, Mandatory) && Free(v + v, Optional)
    ensures Resolve(Token(Mandatory, name) + Token(Mandatory, name), env) == Logged(Ok(v + v), [])
  {
    var t := Token(Mandatory, name);
    TokenDollarOnlyAtStart(Mandatory, name);
    SubstituteTwice(name, v, env);
    MandatoryPassOutcome(t + t, env);
    SubstituteWithoutPlaceholders(v + v, env, Optional);
    OptionalPassOutcome(v + v, env);
  }

  /** The replace step of the mandatory pass turns `"${NAME}${NAME}"` into V+V when V+V holds no `${...}`. */
  lemma SubstituteTwice(name: string, v: string, env: Environment)
    requires IsIdent(name) && Lookup(env, name) == Some(v) && Free(v + v, Mandatory)
    ensures var t := Token(Mandatory, name); Substitute(t + t, env, Mandatory) == v + v
  {
    var t := Token(Mandatory, name);
    TwiceCollectsOnce(name);
    ReplaceTwice(name, v);
    SubstitutedFirstEntry(t + t, env, name, Mandatory, v + v);
  }

  /** `"}${A"` holds no placeholder of either kind. */
  lemma BraceOpenIsFree(k: Kind)
    ensures Free("}${A", k)
  {
    ShortIsFree("${A", k);
    assert "}${A" == ['}'] + "${A";
    FreeAfterNonDollar('}', "${A", k);
  }

  /** Scanning `}${A` written twice finds the one placeholder `${A}` in the middle. */
  lemma BraceOpenTwiceNames()
    ensures Names("}${A" + "}${A", Mandatory) == ["A"]
  {
    var u := Token(Mandatory, "A") + "${A";
    assert "}${A" + "}${A" == "}" + u;
    NamesDollarFreePrefix("}", u, Mandatory);
    NamesAtToken(Mandatory, "A", "${A", Mandatory);
    ShortIsFree("${A", Mandatory);
    NamesEmptyIff("${A", Mandatory);
  }

  /**
   * With N=`}${A`, `"${N}"` resolves to the value, but `"${N}${N}"` fails naming A:
   * the two copies of the value run together into `}${A}${A`, whose middle is a
   * placeholder that the mandatory re-scan reports.
   */
  lemma RepeatedValueRescanned(name: string, v: string, env: Environment)
    requires name == "N" && v == "}${A" && env == [(name, v)]
    ensures Resolve(Token(Mandatory, name), env) == Logged(Ok(v), [])
    ensures Resolve(Token(Mandatory, name) + Token(Mandatory, name), env)
         == Logged(Err(InvalidConfigurationException("Environment variables not found: , A")),
                   [Error("Environment variables not found", ", A")])
  {
    BraceOpenAlone(name, v, env);
    BraceOpenTwice(name, v, env);
  }

  /** `"${N}${N}"` with N=`}${A` fails naming A. */
  lemma BraceOpenTwice(name: string, v: string, env: Environment)
    requires name == "N" && v == "}${A" && env == [(name, v)]
    ensures Resolve(Token(Mandatory, name) + Token(Mandatory, name), env)
         == Logged(Err(InvalidConfigurationException("Environment variables not found: , A")),
                   [Error("Environment variables not found", ", A")])
  {
    BraceOpenTwiceNames();
    RepeatedValueFails(name, v, env, "A");
    MessageNamingA();
  }

  lemma MessageNamingA()
    ensures ", " + "A" == ", A"
    ensures "Environment variables not found: , " + "A" == "Environment variables not found: , A"
  {
  }

  /** `"${N}"` with N=`}${A` resolves to the value. */
  lemma BraceOpenAlone(name: string, v: string, env: Environment)
    requires name == "N" && v == "}${A" && env == [(name, v)]
    ensures Resolve(Token(Mandatory, name), env) == Logged(Ok(v), [])
  {
    BraceOpenIsFree(Mandatory);
    BraceOpenIsFree(Optional);
    LookupSingle((name, v), name);
    SinglePlaceholder(name, v, env);
  }

  /** With the single entry NAME=V, `"${NAME}${NAME}"` fails exactly on the names the re-scan finds in V+V. */
  lemma RepeatedValueFails(name: string, v: string, env: Environment, a: string)
    requires IsIdent(name) && env == [(name, v)] && Names(v + v, Mandatory) == [a]
    ensures Resolve(Token(Mandatory, name) + Token(Mandatory, name), env)
         == Logged(Err(InvalidConfigurationException("Environment variables not found: , " + a)),
                   [Error("Environment variables not found", ", " + a)])
  {
    var t := Token(Mandatory, name);
    TokenDollarOnlyAtStart(Mandatory, name);
    RepeatedValueSubstitute(name, v, env);
    MandatoryPassOutcome(t + t, env);
    assert Concat([a]) == a by { assert [a][1..] == []; assert a + "" == a; }
  }

  /** With the single entry NAME=V, the replace step turns `"${NAME}${NAME}"` into V+V. */
  lemma RepeatedValueSubstitute(name: string, v: string, env: Environment)
    requires IsIdent(name) && env == [(name, v)]
    ensures var t := Token(Mandatory, name); Substitute(t + t, env, Mandatory) == v + v
  {
    var t := Token(Mandatory, name);
    TwiceCollectsOnce(name);
    ReplaceTwice(name, v);
    var keys := Distinct(Names(t + t, Mandatory));
    assert env[..0] == [];
    assert Substituted(t + t, env[..0], keys, Mandatory) == t + t;
    assert Step(t + t, env[0], keys, Mandatory) == v + v;
  }

  lemma UnsetAsPieces(name: string, env: Environment, m: seq<Piece>, o: seq<Piece>)
    requires IsIdent(name) && Unset(env, name)
    requires m == [Ref(Mandatory, name)] && o == [Ref(Optional, name)]
    ensures Resolve(Render(m), env)
         == Logged(Err(InvalidConfigurationException("Environment variables not found: , " + name)),
                   [Error("Environment variables not found", ", " + name)])
    ensures Resolve(Render(o), env)
         == Logged(Ok(Render(o)), [Warn("Environment variables not found", ", " + name)])
  {
    LookupNoneIsUnset(env, name);
    assert WellFormed(m) by { assert PieceOk(m[0]); }
    assert WellFormed(o) by { assert PieceOk(o[0]); }
    assert m[1..] == [] && o[1..] == [];
    assert Lookup(env, name).None?;
    assert Missing(m, env, Mandatory) == [name] + Missing([], env, Mandatory) == [name];
    assert Missing(o, env, Mandatory) == [] + Missing([], env, Mandatory) == [];
    assert Missing(o, env, Optional) == [name] + Missing([], env, Optional) == [name];
    assert Expand(Expand(o, env, Mandatory), env, Optional) == o;
    assert Concat([name]) == name;
    ResolveOfRender(m, env);
    ResolveOfRender(o, env);
  }

  /**
   * A mandatory placeholder whose name is not in the environment fails the call;
   * an optional one comes back verbatim, with a warning.
   */
  lemma UnsetPlaceholder(name: string, env: Environment)
    requires IsIdent(name) && Unset(env, name)
    ensures Resolve(Token(Mandatory, name), env)
         == Logged(Err(InvalidConfigurationException("Environment variables not found: , " + name)),
                   [Error("Environment variables not found", ", " + name)])
    ensures Resolve(Token(Optional, name), env)
         == Logged(Ok(Token(Optional, name)), [Warn("Environment variables not found", ", " + name)])
  {
    var m, o := [Ref(Mandatory, name)], [Ref(Optional, name)];
    UnsetAsPieces(name, env, m, o);
    assert m[1..] == [] && o[1..] == [];
    assert Render(m) == Token(Mandatory, name);
    assert Render(o) == Token(Optional, name);
  }

  /** Resolution when some mandatory placeholder's name is missing: the call fails naming all of them. */
  lemma ResolveOfRenderMandatoryMissing(p: seq<Piece>, env: Environment)
    requires WellFormed(p) && SafeValues(p, env, Mandatory) && SafeValues(p, env, Optional)
    requires Missing(p, env, Mandatory) != []
    ensures var mm := Missing(p, env, Mandatory);
      Resolve(Render(p), env)
        == Logged(Err(InvalidConfigurationException("Environment variables not found: , " + Concat(mm))),
                  [Error("Environment variables not found", ", " + Concat(mm))])
  {
    ResolveOfRender(p, env);
  }

  lemma EndpointAsPieces(a: string, h: string, b: string, q: string, env: Environment, p: seq<Piece>)
    requires '$' !in a && '$' !in b && IsIdent(h) && IsIdent(q)
    requires Lookup(env, h).Some? && '$' !in Lookup(env, h).value && Unset(env, q)
    requires p == [Lit(a), Ref(Mandatory, h), Lit(b), Ref(Mandatory, q)]
    ensures Resolve(Render(p), env)
         == Logged(Err(InvalidConfigurationException("Environment variables not found: , " + q)),
                   [Error("Environment variables not found", ", " + q)])
  {
    EndpointShape(a, h, b, q, p);
    EndpointMissing(a, h, b, q, env, p);
    EndpointSafe(a, h, b, q, env, p);
    assert Concat([q]) == q;
    ResolveOfRenderMandatoryMissing(p, env);
  }

  /** The endpoint pieces are well formed and hold no optional reference. */
  lemma EndpointShape(a: string, h: string, b: string, q: string, p: seq<Piece>)
    requires '$' !in a && '$' !in b && IsIdent(h) && IsIdent(q)
    requires p == [Lit(a), Ref(Mandatory, h), Lit(b), Ref(Mandatory, q)]
    ensures WellFormed(p) && RefNames(p, Optional) == []
  {
    var p1, p2, p3 := p[1..], p[2..], p[3..];
    assert p1[1..] == p2 && p2[1..] == p3 && p3[1..] == [];
    assert PieceOk(p[0]) && PieceOk(p[1]) && PieceOk(p[2]) && PieceOk(p[3]);
    assert RefNames(p3, Optional) == [];
    assert RefNames(p2, Optional) == [];
    assert RefNames(p1, Optional) == [];
  }

  /** Of the endpoint's two mandatory references only the port is missing. */
  lemma EndpointMissing(a: string, h: string, b: string, q: string, env: Environment, p: seq<Piece>)
    requires Lookup(env, h).Some? && Unset(env, q)
    requires p == [Lit(a), Ref(Mandatory, h), Lit(b), Ref(Mandatory, q)]
    ensures Missing(p, env, Mandatory) == [q]
  {
    LookupNoneIsUnset(env, q);
    var p1, p2, p3 := p[1..], p[2..], p[3..];
    assert p1[1..] == p2 && p2[1..] == p3 && p3[1..] == [];
    assert Missing(p3, env, Mandatory) == [q];
    assert Missing(p2, env, Mandatory) == [q];
    assert Missing(p1, env, Mandatory) == [q];
  }

  /** The one value the endpoint's references find holds no '$'. */
  lemma EndpointSafe(a: string, h: string, b: string, q: string, env: Environment, p: seq<Piece>)
    requires Lookup(env, h).Some? && '$' !in Lookup(env, h).value && Unset(env, q)
    requires p == [Lit(a), Ref(Mandatory, h), Lit(b), Ref(Mandatory, q)]
    ensures SafeValues(p, env, Mandatory)
  {
    LookupNoneIsUnset(env, q);
    forall n | n in RefNames(p, Mandatory) && Lookup(env, n).Some? ensures '$' !in Lookup(env, n).value {
      RefNamesMembership(p, Mandatory, n);
    }
  }

  lemma RenderEndpoint(a: string, h: string, b: string, q: string, p: seq<Piece>)
    requires p == [Lit(a), Ref(Mandatory, h), Lit(b), Ref(Mandatory, q)]
    ensures Render(p) == a + Token(Mandatory, h) + b + Token(Mandatory, q)
  {
    var p1, p2, p3 := p[1..], p[2..], p[3..];
    assert p1[1..] == p2 && p2[1..] == p3 && p3[1..] == [];
    assert Render(p3) == Token(Mandatory, q);
    assert Render(p2) == b + Token(Mandatory, q);
    assert Render(p1) == Token(Mandatory, h) + b + Token(Mandatory, q);
  }

  /**
   * An endpoint `A${HOST}B${PORT}` with HOST set and PORT unset: the call fails and
   * the message names PORT and not HOST.
   */
  lemma EndpointWithUnsetPort(a: string, h: string, b: string, q: string, env: Environment)
    requires '$' !in a && '$' !in b && IsIdent(h) && IsIdent(q)
    requires Lookup(env, h).Some? && '$' !in Lookup(env, h).value && Unset(env, q)
    ensures Resolve(a + Token(Mandatory, h) + b + Token(Mandatory, q), env)
         == Logged(Err(InvalidConfigurationException("Environment variables not found: , " + q)),
                   [Error("Environment variables not found", ", " + q)])
  {
    var p := [Lit(a), Ref(Mandatory, h), Lit(b), Ref(Mandatory, q)];
    EndpointAsPieces(a, h, b, q, env, p);
    RenderEndpoint(a, h, b, q, p);
  }
}
