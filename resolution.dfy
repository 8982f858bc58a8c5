/**
 * Placeholder resolution as `ConfigData` performs it: a mandatory pass over
 * `${NAME}` that fails when a placeholder is left, then an optional pass over
 * `${?NAME}` that only warns. The process environment is an ordered sequence of
 * (name, value) entries, walked in that order; the logger is replaced by the list
 * of events each call emits.
 */
module Resolution {
  import opened Placeholders

  /** The entries of `Environment.GetEnvironmentVariables()`, in enumeration order. */
  type Environment = seq<(string, string)>

  datatype InvalidConfigurationException = InvalidConfigurationException(message: string)

  /** A value, or the exception thrown instead of returning it. */
  datatype Result<T> = Ok(value: T) | Err(error: InvalidConfigurationException)

  /** What `log.Error` / `log.Warn` receive: the message and the `varsNotFound` field. */
  datatype LogEvent = Error(message: string, varsNotFound: string) | Warn(message: string, varsNotFound: string)

  /** A result together with the log events emitted while computing it. */
  datatype Logged<T> = Logged(value: T, log: seq<LogEvent>)

  const NotFound := "Environment variables not found"

  /** `keys.Aggregate(", ", (current, k) => current + k)` */
  function VarsNotFound(keys: seq<string>): string
  {
    Aggregate(", ", keys)
  }

  /** One iteration of the `foreach` over the environment. */
  function Step(v: string, entry: (string, string), keys: seq<string>, k: Kind): string
  {
    if entry.0 in keys then Replace(v, Token(k, entry.0), entry.1) else v
  }

  /** The value after the `foreach` has processed the entries `env`, in order. */
  function Substituted(v: string, env: Environment, keys: seq<string>, k: Kind): string
    decreases |env|
  {
    if env == [] then v
    else Step(Substituted(v, env[..|env| - 1], keys, k), env[|env| - 1], keys, k)
  }

  /** The search then the replace step of one pass: everything before the re-scan. */
  function Substitute(value: string, env: Environment, k: Kind): string
  {
    Substituted(value, env, Distinct(Names(value, k)), k)
  }

  /** Specification of `ProcessMandatoryPlaceholders`. */
  function MandatoryPass(value: string, env: Environment): Logged<Result<string>>
  {
    var v := Substitute(value, env, Mandatory);
    var left := Names(v, Mandatory);
    if |left| > 0 then
      Logged(Err(InvalidConfigurationException(NotFound + ": " + VarsNotFound(left))),
             [Error(NotFound, VarsNotFound(left))])
    else
      Logged(Ok(v), [])
  }

  /** Specification of `ProcessOptionalPlaceholders`. */
  function OptionalPass(value: string, env: Environment): Logged<string>
  {
    var v := Substitute(value, env, Optional);
    var left := Names(v, Optional);
    Logged(v, if |left| > 0 then [Warn(NotFound, VarsNotFound(left))] else [])
  }

  /** Specification of `ReplaceEnvironmentVariables`. */
  function Resolve(value: string, env: Environment): Logged<Result<string>>
  {
    if value == "" then Logged(Ok(value), [])
    else
      var m := MandatoryPass(value, env);
      if m.value.Err? then m
      else
        var o := OptionalPass(m.value.value, env);
        Logged(Ok(o.value), m.log + o.log)
  }

  method ProcessMandatoryPlaceholders(value: string, env: Environment) returns (r: Result<string>, log: seq<LogEvent>)
    ensures Logged(r, log) == MandatoryPass(value, env)
    ensures r.Ok? ==> Free(r.value, Mandatory) && log == []
    ensures r.Err? ==> var left := Names(Substitute(value, env, Mandatory), Mandatory);
      && left != []
      && r.error.message == "Environment variables not found: , " + Concat(left)
      && log == [Error("Environment variables not found", ", " + Concat(left))]
  {
    var keys := Distinct(Names(value, Mandatory));
    var v := value;
    var i := 0;
    while i < |env|
      invariant 0 <= i <= |env|
      invariant v == Substituted(value, env[..i], keys, Mandatory)
    {
      var (name, val) := env[i];
      if name in keys {
        v := Replace(v, Token(Mandatory, name), val);
      }
      assert env[..i + 1][..i] == env[..i];
      i := i + 1;
    }
    assert env[..|env|] == env;
    var left := Names(v, Mandatory);
    if |left| > 0 {
      var varsNotFound := VarsNotFound(left);
      log := [Error(NotFound, varsNotFound)];
      r := Err(InvalidConfigurationException(NotFound + ": " + varsNotFound));
    } else {
      r, log := Ok(v), [];
    }
    MandatoryPassOutcome(value, env);
  }

  method ProcessOptionalPlaceholders(value: string, env: Environment) returns (r: string, log: seq<LogEvent>)
    ensures Logged(r, log) == OptionalPass(value, env)
    ensures log == [] <==> Free(r, Optional)
    ensures log != [] ==> log == [Warn("Environment variables not found", ", " + Concat(Names(r, Optional)))]
  {
    var keys := Distinct(Names(value, Optional));
    var v := value;
    var i := 0;
    while i < |env|
      invariant 0 <= i <= |env|
      invariant v == Substituted(value, env[..i], keys, Optional)
    {
      var (name, val) := env[i];
      if name in keys {
        v := Replace(v, Token(Optional, name), val);
      }
      assert env[..i + 1][..i] == env[..i];
      i := i + 1;
    }
    assert env[..|env|] == env;
    var left := Names(v, Optional);
    if |left| > 0 {
      log := [Warn(NotFound, VarsNotFound(left))];
    } else {
      log := [];
    }
    r := v;
    OptionalPassOutcome(value, env);
  }

  method ReplaceEnvironmentVariables(value: string, env: Environment) returns (r: Result<string>, log: seq<LogEvent>)
    ensures Logged(r, log) == Resolve(value, env)
    ensures value == "" ==> r == Ok("") && log == []
    ensures Free(value, Mandatory) && Free(value, Optional) ==> r == Ok(value) && log == []
  {
    if value == "" {
      r, log := Ok(value), [];
    } else {
      var m, mlog := ProcessMandatoryPlaceholders(value, env);
      if m.Err? {
        r, log := m, mlog;
      } else {
        var o, olog := ProcessOptionalPlaceholders(m.value, env);
        r, log := Ok(o), mlog + olog;
      }
    }
    if Free(value, Mandatory) && Free(value, Optional) {
      ResolveWithoutPlaceholders(value, env);
    }
  }

  /** The mandatory pass succeeds exactly when its re-scan finds nothing; otherwise the message lists every name found. */
  lemma MandatoryPassOutcome(value: string, env: Environment)
    ensures var o := MandatoryPass(value, env);
            var v := Substitute(value, env, Mandatory);
            var left := Names(v, Mandatory);
      && (o.value.Ok? <==> Free(v, Mandatory))
      && (o.value.Ok? ==> o.value.value == v && o.log == [])
      && (o.value.Err? ==>
            && left != []
            && o.value.error.message == "Environment variables not found: , " + Concat(left)
            && o.log == [Error("Environment variables not found", ", " + Concat(left))])
  {
    var v := Substitute(value, env, Mandatory);
    var left := Names(v, Mandatory);
    NamesEmptyIff(v, Mandatory);
    if left != [] {
      NotFoundMessage(left);
    }
  }

  /** The text of the exception the mandatory pass throws for the names `keys`. */
  lemma NotFoundMessage(keys: seq<string>)
    ensures VarsNotFound(keys) == ", " + Concat(keys)
    ensures NotFound + ": " + VarsNotFound(keys) == "Environment variables not found: , " + Concat(keys)
  {
    AggregateIsSeedConcat(", ", keys);
    var c := Concat(keys);
    assert NotFound + ": " + ", " == "Environment variables not found: , ";
    assert NotFound + ": " + (", " + c) == (NotFound + ": " + ", ") + c;
  }

  /** The optional pass never fails; it warns exactly when its re-scan finds something, listing every name found. */
  lemma OptionalPassOutcome(value: string, env: Environment)
    ensures var o := OptionalPass(value, env);
      && o.value == Substitute(value, env, Optional)
      && (o.log == [] <==> Free(o.value, Optional))
      && (o.log != [] ==> o.log == [Warn("Environment variables not found", ", " + Concat(Names(o.value, Optional)))])
  {
    var v := Substitute(value, env, Optional);
    var left := Names(v, Optional);
    NamesEmptyIff(v, Optional);
    if left != [] {
      AggregateIsSeedConcat(", ", left);
      assert VarsNotFound(left) == ", " + Concat(left);
    }
  }

  /** With no collected names, the `foreach` replaces nothing. */
  lemma {:induction false} SubstitutedWithoutKeys(v: string, env: Environment, k: Kind)
    ensures Substituted(v, env, [], k) == v
    decreases |env|
  {
    if env != [] {
      SubstitutedWithoutKeys(v, env[..|env| - 1], k);
    }
  }

  /** A pass over text holding no placeholder of its kind changes nothing. */
  lemma SubstituteWithoutPlaceholders(value: string, env: Environment, k: Kind)
    requires Free(value, k)
    ensures Substitute(value, env, k) == value
  {
    NamesEmptyIff(value, k);
    SubstitutedWithoutKeys(value, env, k);
  }

  /** Text holding no placeholder of either kind comes back unchanged, with nothing thrown and nothing logged. */
  lemma ResolveWithoutPlaceholders(value: string, env: Environment)
    requires Free(value, Mandatory) && Free(value, Optional)
    ensures MandatoryPass(value, env) == Logged(Ok(value), [])
    ensures OptionalPass(value, env) == Logged(value, [])
    ensures Resolve(value, env) == Logged(Ok(value), [])
  {
    SubstituteWithoutPlaceholders(value, env, Mandatory);
    SubstituteWithoutPlaceholders(value, env, Optional);
    NamesEmptyIff(value, Mandatory);
    NamesEmptyIff(value, Optional);
  }

  /**
   * A placeholder token that no processed entry names is carried through the
   * `foreach` intact and in place; the text on either side is processed as if
   * the token were not there.
   */
  lemma {:induction false} SubstitutedKeepsToken(a: string, k': Kind, n: string, b: string, env: Environment, keys: seq<string>, k: Kind)
    requires IsIdent(n)
    requires forall x | x in keys :: IsIdent(x)
    requires forall i | 0 <= i < |env| :: env[i].0 in keys ==> k != k' || env[i].0 != n
    ensures Substituted(a + Token(k', n) + b, env, keys, k)
         == Substituted(a, env, keys, k) + Token(k', n) + Substituted(b, env, keys, k)
    decreases |env|
  {
    if env != [] {
      var init := env[..|env| - 1];
      var e := env[|env| - 1];
      SubstitutedKeepsToken(a, k', n, b, init, keys, k);
      var a' := Substituted(a, init, keys, k);
      var b' := Substituted(b, init, keys, k);
      var t := Token(k', n);
      if e.0 in keys {
        var name := e.0;
        assert IsIdent(name);
        TokenDollarOnlyAtStart(k', n);
        StringAssoc(a', t, b');
        ReplaceSplitAtDollar(a', t + b', k, name, e.1);
        ReplaceAtToken(k', n, b', k, name, e.1);
        StringAssoc(Replace(a', Token(k, name), e.1), t, Replace(b', Token(k, name), e.1));
      }
    }
  }

  /**
   * The mandatory pass never touches an optional placeholder: `${?NAME}` comes out
   * of the replace step intact and in place, so the optional pass sees it.
   */
  lemma MandatoryKeepsOptionalToken(a: string, n: string, b: string, env: Environment)
    requires IsIdent(n)
    ensures var keys := Distinct(Names(a + Token(Optional, n) + b, Mandatory));
      Substitute(a + Token(Optional, n) + b, env, Mandatory)
        == Substituted(a, env, keys, Mandatory) + Token(Optional, n) + Substituted(b, env, keys, Mandatory)
  {
    var keys := Distinct(Names(a + Token(Optional, n) + b, Mandatory));
    CollectedKeysAreIdents(a + Token(Optional, n) + b, Mandatory);
    SubstitutedKeepsToken(a, Optional, n, b, env, keys, Mandatory);
  }

  /** No environment entry has this name. */
  predicate Unset(env: Environment, n: string)
  {
    forall i | 0 <= i < |env| :: env[i].0 != n
  }

  /** The replace step of the optional pass carries a `${?NAME}` with an unset name through intact. */
  lemma OptionalSubstituteKeepsUnsetToken(a: string, n: string, b: string, env: Environment)
    requires IsIdent(n) && Unset(env, n)
    ensures var keys := Distinct(Names(a + Token(Optional, n) + b, Optional));
      Substitute(a + Token(Optional, n) + b, env, Optional)
        == Substituted(a, env, keys, Optional) + Token(Optional, n) + Substituted(b, env, keys, Optional)
  {
    var keys := Distinct(Names(a + Token(Optional, n) + b, Optional));
    CollectedKeysAreIdents(a + Token(Optional, n) + b, Optional);
    SubstitutedKeepsToken(a, Optional, n, b, env, keys, Optional);
  }

  /** Scanning text around a token of the scanned kind finds the names before it, its name, then the names after it. */
  lemma NamesAroundToken(a: string, n: string, b: string, k: Kind)
    requires IsIdent(n)
    ensures Names(a + Token(k, n) + b, k) == Names(a, k) + [n] + Names(b, k)
  {
    var t := Token(k, n);
    TokenDollarOnlyAtStart(k, n);
    assert a + t + b == a + (t + b);
    NamesSplitAtDollar(a, t + b, k);
    NamesAtToken(k, n, b, k);
  }

  /**
   * An optional placeholder whose name the environment does not hold stays verbatim
   * in the output, the pass does not fail, and the warning lists it.
   */
  lemma OptionalKeepsUnsetToken(a: string, n: string, b: string, env: Environment)
    requires IsIdent(n) && Unset(env, n)
    ensures var s := a + Token(Optional, n) + b;
            var keys := Distinct(Names(s, Optional));
            var a' := Substituted(a, env, keys, Optional);
            var b' := Substituted(b, env, keys, Optional);
      OptionalPass(s, env) == Logged(a' + Token(Optional, n) + b',
        [Warn("Environment variables not found", ", " + Concat(Names(a', Optional) + [n] + Names(b', Optional)))])
  {
    var s := a + Token(Optional, n) + b;
    var keys := Distinct(Names(s, Optional));
    var a' := Substituted(a, env, keys, Optional);
    var b' := Substituted(b, env, keys, Optional);
    OptionalSubstituteKeepsUnsetToken(a, n, b, env);
    NamesAroundToken(a', n, b', Optional);
    NamesEmptyIff(a' + Token(Optional, n) + b', Optional);
    OptionalPassOutcome(s, env);
  }

  /** Every name the search step collects is an identifier. */
  lemma CollectedKeysAreIdents(s: string, k: Kind)
    ensures forall x | x in Distinct(Names(s, k)) :: IsIdent(x)
  {
  }

  /** Two entries are processed first to last. */
  lemma SubstitutedTwo(v: string, e1: (string, string), e2: (string, string), keys: seq<string>, k: Kind)
    ensures Substituted(v, [e1, e2], keys, k) == Step(Step(v, e1, keys, k), e2, keys, k)
  {
    var env := [e1, e2];
    assert env[..1] == [e1];
    assert [e1][..0] == [];
    assert Substituted(v, [e1], keys, k) == Step(Substituted(v, [], keys, k), e1, keys, k);
  }

  lemma LaterEntrySubstitution(a: string, b: string, x: string)
    requires IsIdent(a) && IsIdent(b) && a != b && '$' !in x
    ensures Substitute(Token(Mandatory, a) + Token(Mandatory, b), [(a, Token(Mandatory, b)), (b, x)], Mandatory) == x + x
  {
    var tA, tB := Token(Mandatory, a), Token(Mandatory, b);
    var env: Environment := [(a, tB), (b, x)];
    var s := tA + tB;
    assert tB + "" == tB;
    NamesAtToken(Mandatory, a, tB, Mandatory);
    NamesAtToken(Mandatory, b, "", Mandatory);
    assert Names(s, Mandatory) == [a, b];
    var keys := Distinct(Names(s, Mandatory));
    assert a in keys && b in keys;
    ReplaceAtToken(Mandatory, a, tB, Mandatory, a, tB);
    ReplaceAtToken(Mandatory, b, "", Mandatory, a, tB);
    var step1 := Step(s, env[0], keys, Mandatory);
    assert step1 == tB + tB;
    ReplaceAtToken(Mandatory, b, tB, Mandatory, b, x);
    ReplaceAtToken(Mandatory, b, "", Mandatory, b, x);
    assert Step(step1, env[1], keys, Mandatory) == x + x;
    SubstitutedTwo(s, env[0], env[1], keys, Mandatory);
  }

  /**
   * Entries are applied in environment order, and a substituted value is itself
   * subject to later entries: with A=${B} listed before B=x both placeholders end as x.
   */
  lemma LaterEntryRewritesEarlierValue(a: string, b: string, x: string)
    requires IsIdent(a) && IsIdent(b) && a != b && '$' !in x
    ensures Resolve(Token(Mandatory, a) + Token(Mandatory, b), [(a, Token(Mandatory, b)), (b, x)])
         == Logged(Ok(x + x), [])
  {
    var env: Environment := [(a, Token(Mandatory, b)), (b, x)];
    LaterEntrySubstitution(a, b, x);
    DollarFreeIsFree(x + x, Mandatory);
    DollarFreeIsFree(x + x, Optional);
    SubstituteWithoutPlaceholders(x + x, env, Optional);
    MandatoryPassOutcome(Token(Mandatory, a) + Token(Mandatory, b), env);
    OptionalPassOutcome(x + x, env);
    TokenDollarOnlyAtStart(Mandatory, a);
  }

  lemma EarlierEntrySubstitution(a: string, b: string, x: string)
    requires IsIdent(a) && IsIdent(b) && a != b
    ensures Substitute(Token(Mandatory, a), [(b, x), (a, Token(Mandatory, b))], Mandatory) == Token(Mandatory, b)
  {
    var tA, tB := Token(Mandatory, a), Token(Mandatory, b);
    var env: Environment := [(b, x), (a, tB)];
    assert tA + "" == tA;
    NamesAtToken(Mandatory, a, "", Mandatory);
    assert Names(tA, Mandatory) == [a];
    var keys := Distinct(Names(tA, Mandatory));
    assert a in keys && b !in keys;
    var step1 := Step(tA, env[0], keys, Mandatory);
    assert step1 == tA;
    ReplaceAtToken(Mandatory, a, "", Mandatory, a, tB);
    assert Step(step1, env[1], keys, Mandatory) == tB;
    SubstitutedTwo(tA, env[0], env[1], keys, Mandatory);
  }

  /**
   * The same entries in the other order: B is processed before A introduces
   * `${B}`, so the re-scan finds it and the mandatory pass fails.
   */
  lemma EarlierEntryMissesLaterValue(a: string, b: string, x: string)
    requires IsIdent(a) && IsIdent(b) && a != b
    ensures Resolve(Token(Mandatory, a), [(b, x), (a, Token(Mandatory, b))])
         == Logged(Err(InvalidConfigurationException("Environment variables not found: , " + b)),
                   [Error("Environment variables not found", ", " + b)])
  {
    var tB := Token(Mandatory, b);
    var env: Environment := [(b, x), (a, tB)];
    EarlierEntrySubstitution(a, b, x);
    assert tB + "" == tB;
    NamesAtToken(Mandatory, b, "", Mandatory);
    assert Names(tB, Mandatory) == [b];
    assert b + "" == b;
    assert Concat([b]) == b + Concat([]) == b;
    MandatoryPassOutcome(Token(Mandatory, a), env);
    TokenDollarOnlyAtStart(Mandatory, a);
  }
}
