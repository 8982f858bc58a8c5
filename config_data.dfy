/**
 * The public face of `ConfigData`: typed getters over the loaded configuration.
 * Each getter looks the key up (falling back to the default written as text),
 * resolves the placeholders in the value, then converts the text. The loaded
 * configuration is a map from key to value; the process environment and the log
 * are as in `Resolution`.
 */
module ConfigData {
  import opened Placeholders
  import opened Resolution

  /** The key/value pairs the configuration root holds. */
  type Configuration = map<string, string>

  /** .NET's `int`. */
  newtype int32 = x: int | -0x8000_0000 <= x < 0x8000_0000

  /** `configuration.GetValue(key, defaultValue)`: the stored value, or the default when the key is absent. */
  function GetValue(configuration: Configuration, key: string, defaultValue: string): string
  {
    if key in configuration then configuration[key] else defaultValue
  }

  // ---------------------------------------------------------------- booleans

  /** The lower-cased words `GetBool` reads as true. */
  const KnownTrue: set<string> := {"true", "t", "yes", "y", "1", "-1"}

  /** The lower-cased words `GetBool` reads as false. */
  const KnownFalse: set<string> := {"false", "f", "no", "n", "0"}

  function LowerChar(c: char): char
  {
    if 'A' <= c <= 'Z' then (c as int + 32) as char else c
  }

  /** `ToLowerInvariant`, on the ASCII letters. */
  function ToLowerInvariant(s: string): (r: string)
    ensures |r| == |s|
    ensures forall i | 0 <= i < |s| :: r[i] == LowerChar(s[i])
    ensures forall i | 0 <= i < |s| :: !('A' <= r[i] <= 'Z')
  {
    if s == [] then [] else [LowerChar(s[0])] + ToLowerInvariant(s[1..])
  }

  /** `bool.ToString()`. */
  function BoolToString(b: bool): string
  {
    if b then "True" else "False"
  }

  /** A boolean default written out by `ToString` is read back as itself. */
  lemma BoolToStringRoundTrip(b: bool)
    ensures '$' !in BoolToString(b)
    ensures b ==> ToLowerInvariant(BoolToString(b)) in KnownTrue
    ensures !b ==> ToLowerInvariant(BoolToString(b)) !in KnownTrue && ToLowerInvariant(BoolToString(b)) in KnownFalse
  {
    var r := ToLowerInvariant(BoolToString(b));
    if b {
      assert r[0] == 't' && r[1] == 'r' && r[2] == 'u' && r[3] == 'e';
      assert r == "true";
    } else {
      assert r[0] == 'f' && r[1] == 'a' && r[2] == 'l' && r[3] == 's' && r[4] == 'e';
      assert r == "false";
    }
  }

  // ---------------------------------------------------------------- integers

  /** The white space `Int32.Parse` skips around the number: U+0009 to U+000D and U+0020. */
  predicate IsWhite(c: char)
  {
    c == ' ' || '\t' <= c <= '\r'
  }

  predicate IsDigit(c: char)
  {
    '0' <= c <= '9'
  }

  predicate AllWhite(s: string)
  {
    forall i | 0 <= i < |s| :: IsWhite(s[i])
  }

  predicate AllDigits(s: string)
  {
    forall i | 0 <= i < |s| :: IsDigit(s[i])
  }

  /** `s` without its leading white space. */
  function TrimStart(s: string): (r: string)
    ensures |r| <= |s| && r == s[|s| - |r|..]
    ensures r == [] || !IsWhite(r[0])
    ensures AllWhite(s[..|s| - |r|])
    decreases |s|
  {
    if s != [] && IsWhite(s[0]) then
      var r := TrimStart(s[1..]);
      assert s[..|s| - |r|] == [s[0]] + s[1..][..|s| - 1 - |r|];
      r
    else s
  }

  /** `s` without its trailing white space. */
  function TrimEnd(s: string): (r: string)
    ensures r <= s
    ensures r == [] || !IsWhite(r[|r| - 1])
    ensures AllWhite(s[|r|..])
    decreases |s|
  {
    if s != [] && IsWhite(s[|s| - 1]) then
      var r := TrimEnd(s[..|s| - 1]);
      assert s[|r|..] == s[..|s| - 1][|r|..] + [s[|s| - 1]];
      r
    else s
  }

  /** The value of a run of decimal digits, most significant first. */
  function DigitsValue(ds: string): nat
    requires AllDigits(ds)
  {
    if ds == [] then 0 else 10 * DigitsValue(ds[..|ds| - 1]) + (ds[|ds| - 1] as int - '0' as int)
  }

  /**
   * `Convert.ToInt32(string)`, that is `Int32.Parse` with the integer number
   * style: optional white space, an optional `+` or `-`, one or more decimal
   * digits, optional white space. `None` is the `FormatException` for any other
   * text and the `OverflowException` for a number outside 32 bits.
   */
  function ParseInt32(s: string): (r: Option<int32>)
    ensures r.Some? ==> exists i | 0 <= i < |s| :: IsDigit(s[i])
  {
    var u := TrimStart(s);
    var t := TrimEnd(u);
    var r := ParseSigned(t);
    if r.Some? then
      assert IsDigit(s[|s| - |u| + |t| - 1]) by { assert t[|t| - 1] == u[|t| - 1]; }
      r
    else r
  }

  /** An optional sign and one or more digits, nothing else, within 32 bits. */
  function ParseSigned(t: string): (r: Option<int32>)
    ensures r.Some? ==> |t| > 0 && IsDigit(t[|t| - 1])
  {
    var negative := |t| > 0 && t[0] == '-';
    var ds := if |t| > 0 && (t[0] == '-' || t[0] == '+') then t[1..] else t;
    if ds == [] || !AllDigits(ds) then None
    else
      var n := if negative then -(DigitsValue(ds) as int) else DigitsValue(ds) as int;
      if -0x8000_0000 <= n < 0x8000_0000 then Some(n as int32) else None
  }

  function DigitChar(d: nat): char
    requires d < 10
  {
    ('0' as int + d) as char
  }

  /** The decimal digits of `n`, most significant first, with no leading zero. */
  function NatToString(n: nat): (r: string)
    ensures r != [] && AllDigits(r)
  {
    if n < 10 then [DigitChar(n)] else NatToString(n / 10) + [DigitChar(n % 10)]
  }

  /** `int.ToString()`: the digits of the magnitude, after a `-` when negative. */
  function IntToString(n: int): string
  {
    if n < 0 then "-" + NatToString(-n) else NatToString(n)
  }

  lemma {:induction false} DigitsValueOfNatToString(n: nat)
    ensures DigitsValue(NatToString(n)) == n
  {
    var r := NatToString(n);
    if n >= 10 {
      DigitsValueOfNatToString(n / 10);
      assert r[..|r| - 1] == NatToString(n / 10);
    }
  }

  lemma {:induction false} TrimStartOfPadded(w: string, t: string)
    requires AllWhite(w) && (t == [] || !IsWhite(t[0]))
    ensures TrimStart(w + t) == t
    decreases |w|
  {
    if w != [] {
      assert (w + t)[1..] == w[1..] + t;
      TrimStartOfPadded(w[1..], t);
    } else {
      assert w + t == t;
    }
  }

  lemma {:induction false} TrimEndOfPadded(t: string, w: string)
    requires AllWhite(w) && (t == [] || !IsWhite(t[|t| - 1]))
    ensures TrimEnd(t + w) == t
    decreases |w|
  {
    if w != [] {
      assert (t + w)[..|t + w| - 1] == t + w[..|w| - 1];
      TrimEndOfPadded(t, w[..|w| - 1]);
    } else {
      assert t + w == t;
    }
  }

  lemma ParseSignedOfIntToString(n: int)
    ensures ParseSigned(IntToString(n)) == if -0x8000_0000 <= n < 0x8000_0000 then Some(n as int32) else None
  {
    var t := IntToString(n);
    var m: nat := if n < 0 then -n else n;
    DigitsValueOfNatToString(m);
    if n < 0 {
      assert t[0] == '-' && t[1..] == NatToString(m);
    } else {
      assert t == NatToString(m) && IsDigit(t[0]);
    }
  }

  /**
   * An integer written out by `ToString` and surrounded by any white space is read
   * back as itself when it fits in 32 bits, and is refused otherwise.
   */
  lemma ParseIntToString(w1: string, n: int, w2: string)
    requires AllWhite(w1) && AllWhite(w2)
    ensures ParseInt32(w1 + IntToString(n) + w2)
         == if -0x8000_0000 <= n < 0x8000_0000 then Some(n as int32) else None
  {
    var t := IntToString(n);
    assert !IsWhite(t[0]) && !IsWhite(t[|t| - 1]);
    assert w1 + t + w2 == w1 + (t + w2);
    TrimStartOfPadded(w1, t + w2);
    TrimEndOfPadded(t, w2);
    ParseSignedOfIntToString(n);
  }

  /** An integer's written form holds no `$`. */
  lemma IntToStringHasNoDollar(n: int)
    ensures '$' !in IntToString(n)
  {
    var digits := NatToString(if n < 0 then -n else n);
    forall i | 0 <= i < |digits| ensures digits[i] != '$' {
      assert IsDigit(digits[i]);
    }
  }

  /** The default of `GetInt`, written out and read back, is the default. */
  lemma IntDefaultRoundTrip(d: int32)
    ensures '$' !in IntToString(d as int)
    ensures ParseInt32(IntToString(d as int)) == Some(d)
  {
    var t := IntToString(d as int);
    IntToStringHasNoDollar(d as int);
    assert !IsWhite(t[0]) && !IsWhite(t[|t| - 1]);
    TrimStartOfPadded([], t);
    TrimEndOfPadded(t, []);
    assert [] + t == t && t + [] == t;
    ParseSignedOfIntToString(d as int);
  }

  // ---------------------------------------------------------------- getters

  /** `GetString`: the value for `key`, or `defaultValue`, with its placeholders resolved. */
  method GetString(configuration: Configuration, env: Environment, key: string, defaultValue: string := "")
    returns (r: Result<string>, log: seq<LogEvent>)
    ensures Logged(r, log) == Resolve(GetValue(configuration, key, defaultValue), env)
    ensures key !in configuration && '$' !in defaultValue ==> r == Ok(defaultValue) && log == []
    ensures key in configuration && '$' !in configuration[key] ==> r == Ok(configuration[key]) && log == []
  {
    var value := GetValue(configuration, key, defaultValue);
    r, log := ReplaceEnvironmentVariables(value, env);
    if '$' !in value {
      DollarFreeIsFree(value, Mandatory);
      DollarFreeIsFree(value, Optional);
    }
  }

  /**
   * `GetBool`: the resolved text, lower-cased, is true when it is a known true
   * word, false when it is a known false word, and the default otherwise. A
   * mandatory placeholder left unresolved fails the call.
   */
  method GetBool(configuration: Configuration, env: Environment, key: string, defaultValue: bool := false)
    returns (r: Result<bool>, log: seq<LogEvent>)
    ensures var s := Resolve(GetValue(configuration, key, BoolToString(defaultValue)), env);
      && log == s.log
      && (r.Err? <==> s.value.Err?)
      && (r.Err? ==> r.error == s.value.error)
      && (s.value.Ok? ==>
            var lower := ToLowerInvariant(s.value.value);
            && (lower in KnownTrue ==> r == Ok(true))
            && (lower !in KnownTrue && lower in KnownFalse ==> r == Ok(false))
            && (lower !in KnownTrue && lower !in KnownFalse ==> r == Ok(defaultValue)))
    ensures key !in configuration ==> r == Ok(defaultValue) && log == []
  {
    var s, slog := GetString(configuration, env, key, BoolToString(defaultValue));
    log := slog;
    if s.Err? {
      r := Err(s.error);
    } else {
      var value := ToLowerInvariant(s.value);
      if value in KnownTrue {
        r := Ok(true);
      } else if value in KnownFalse {
        r := Ok(false);
      } else {
        r := Ok(defaultValue);
      }
    }
    BoolToStringRoundTrip(defaultValue);
  }

  /**
   * `GetInt`: the resolved text read as a 32-bit integer. Any failure, the
   * unresolved mandatory placeholder as well as text that is not a number or does
   * not fit, becomes the one exception naming the key.
   */
  method GetInt(configuration: Configuration, env: Environment, key: string, defaultValue: int32 := 0)
    returns (r: Result<int32>, log: seq<LogEvent>)
    ensures var s := Resolve(GetValue(configuration, key, IntToString(defaultValue as int)), env);
      && log == s.log
      && (r.Ok? <==> s.value.Ok? && ParseInt32(s.value.value).Some?)
      && (r.Ok? ==> ParseInt32(s.value.value) == Some(r.value))
      && (r.Err? ==> r.error == InvalidConfigurationException("Unable to load configuration value for '" + key + "'"))
    ensures key !in configuration ==> r == Ok(defaultValue) && log == []
  {
    var s, slog := GetString(configuration, env, key, IntToString(defaultValue as int));
    log := slog;
    var n := if s.Ok? then ParseInt32(s.value) else None;
    if n.Some? {
      r := Ok(n.value);
    } else {
      r := Err(InvalidConfigurationException("Unable to load configuration value for '" + key + "'"));
    }
    IntDefaultRoundTrip(defaultValue);
  }
}
