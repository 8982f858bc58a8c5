/**
 * Text-level building blocks of placeholder resolution: a scanner for the two
 * fixed placeholder patterns `${NAME}` and `${?NAME}` (NAME = [a-zA-Z_][a-zA-Z0-9_]*),
 * the replace-all of `String.Replace`, the `Distinct` and `Aggregate` steps of the
 * LINQ queries, and the facts about how these interact.
 */
module Placeholders {

  datatype Option<T> = None | Some(value: T)

  /** The two placeholder forms: `${NAME}` (mandatory) and `${?NAME}` (optional). */
  datatype Kind = Mandatory | Optional

  /** The text that opens a placeholder of the given kind. */
  function Open(k: Kind): string
  {
    match k
    case Mandatory => "${"
    case Optional => "${?"
  }

  /** The literal placeholder text for `name`: what the source builds as "${" + key + "}" or "${?" + key + "}". */
  function Token(k: Kind, name: string): string
  {
    Open(k) + name + "}"
  }

  predicate IsIdentStart(c: char)
  {
    'a' <= c <= 'z' || 'A' <= c <= 'Z' || c == '_'
  }

  predicate IsIdentChar(c: char)
  {
    IsIdentStart(c) || '0' <= c <= '9'
  }

  /** NAME matches [a-zA-Z_][a-zA-Z0-9_]* */
  predicate IsIdent(n: string)
  {
    |n| > 0 && IsIdentStart(n[0]) && forall i | 1 <= i < |n| :: IsIdentChar(n[i])
  }

  /** The longest prefix of `t` made of identifier characters (the greedy `[a-zA-Z0-9_]*`). */
  function IdentPrefix(t: string): (r: string)
    ensures r <= t
    ensures forall i | 0 <= i < |r| :: IsIdentChar(r[i])
    ensures |r| < |t| ==> !IsIdentChar(t[|r|])
  {
    if t != [] && IsIdentChar(t[0]) then [t[0]] + IdentPrefix(t[1..]) else []
  }

  /**
   * The regular expression anchored at the start of `s`: the name of the
   * placeholder of kind `k` that `s` begins with, if any.
   */
  function MatchAt(s: string, k: Kind): (r: Option<string>)
    ensures r.Some? ==> IsIdent(r.value) && Token(k, r.value) <= s && s[0] == '$'
  {
    var o := Open(k);
    if |o| < |s| && s[..|o|] == o && IsIdentStart(s[|o|]) then
      var n := IdentPrefix(s[|o|..]);
      if |o| + |n| < |s| && s[|o| + |n|] == '}' then
        assert n == s[|o|..|o| + |n|];
        assert s[..|o| + |n| + 1] == o + n + "}";
        Some(n)
      else None
    else None
  }

  /**
   * The names captured by all non-overlapping matches of the pattern of kind `k`
   * in `s`, left to right, duplicates kept (`Regex.Matches` + `Groups[1].Value`).
   */
  function Names(s: string, k: Kind): (r: seq<string>)
    ensures forall i | 0 <= i < |r| :: IsIdent(r[i])
    decreases |s|
  {
    if s == [] then []
    else
      match MatchAt(s, k)
      case Some(n) => [n] + Names(s[|Token(k, n)|..], k)
      case None => Names(s[1..], k)
  }

  /** No placeholder of kind `k` starts anywhere in `s`. */
  ghost predicate Free(s: string, k: Kind)
  {
    forall i | 0 <= i <= |s| :: MatchAt(s[i..], k).None?
  }

  /** `String.Replace(pat, rep)`: every non-overlapping occurrence, scanned left to right. */
  function Replace(s: string, pat: string, rep: string): string
    requires |pat| > 0
    decreases |s|
  {
    if |s| < |pat| then s
    else if s[..|pat|] == pat then rep + Replace(s[|pat|..], pat, rep)
    else [s[0]] + Replace(s[1..], pat, rep)
  }

  /** Replacing a text by itself changes nothing. */
  lemma {:induction false} ReplaceBySelf(s: string, pat: string)
    requires |pat| > 0
    ensures Replace(s, pat, pat) == s
    decreases |s|
  {
    if |s| >= |pat| {
      if s[..|pat|] == pat {
        ReplaceBySelf(s[|pat|..], pat);
        assert s[..|pat|] + s[|pat|..] == s;
      } else {
        ReplaceBySelf(s[1..], pat);
        assert [s[0]] + s[1..] == s;
      }
    }
  }

  /** LINQ `Distinct`: the first occurrence of every element, in order. */
  function Distinct(xs: seq<string>): (r: seq<string>)
    ensures forall x :: x in r <==> x in xs
    ensures forall i, j | 0 <= i < j < |r| :: r[i] != r[j]
  {
    if xs == [] then []
    else
      var d := Distinct(xs[..|xs| - 1]);
      var last := xs[|xs| - 1];
      assert xs == xs[..|xs| - 1] + [last];
      if last in d then d else d + [last]
  }

  /** LINQ `Aggregate(seed, (current, k) => current + k)`: a left fold by concatenation. */
  function Aggregate(seed: string, ks: seq<string>): (r: string)
    ensures seed <= r
    decreases |ks|
  {
    if ks == [] then seed else Aggregate(seed + ks[0], ks[1..])
  }

  function Concat(ks: seq<string>): string
  {
    if ks == [] then "" else ks[0] + Concat(ks[1..])
  }

  lemma {:induction false} AggregateIsSeedConcat(seed: string, ks: seq<string>)
    ensures Aggregate(seed, ks) == seed + Concat(ks)
    decreases |ks|
  {
    if ks != [] {
      AggregateIsSeedConcat(seed + ks[0], ks[1..]);
      assert seed + ks[0] + Concat(ks[1..]) == seed + (ks[0] + Concat(ks[1..]));
    }
  }

  lemma {:induction false} ConcatAppend(a: seq<string>, b: seq<string>)
    ensures Concat(a + b) == Concat(a) + Concat(b)
  {
    if a != [] {
      assert (a + b)[0] == a[0];
      assert (a + b)[1..] == a[1..] + b;
      ConcatAppend(a[1..], b);
    } else {
      assert a + b == b;
    }
  }

  /** A placeholder token has its only '$' at the front. */
  lemma TokenDollarOnlyAtStart(k: Kind, n: string)
    requires IsIdent(n)
    ensures |Token(k, n)| >= 4 && Token(k, n)[0] == '$'
    ensures forall i | 1 <= i < |Token(k, n)| :: Token(k, n)[i] != '$'
    ensures '$' !in Token(k, n)[1..]
  {
    var t := Token(k, n);
    forall i | 1 <= i < |t| ensures t[i] != '$' {
      var o := Open(k);
      if i >= |o| && i < |o| + |n| {
        assert t[i] == n[i - |o|];
        assert IsIdentChar(n[i - |o|]);
      }
    }
  }

  /** Greedy identifier scanning stops exactly at the end of a name followed by a non-identifier character. */
  lemma {:induction false} IdentPrefixOfName(n: string, rest: string)
    requires forall i | 0 <= i < |n| :: IsIdentChar(n[i])
    requires rest == [] || !IsIdentChar(rest[0])
    ensures IdentPrefix(n + rest) == n
  {
    if n != [] {
      assert (n + rest)[1..] == n[1..] + rest;
      IdentPrefixOfName(n[1..], rest);
    } else {
      assert n + rest == rest;
    }
  }

  /** The scanner matches at the start of `s` exactly when `s` begins with a placeholder token. */
  lemma MatchAtIff(s: string, k: Kind, n: string)
    ensures MatchAt(s, k) == Some(n) <==> IsIdent(n) && Token(k, n) <= s
  {
    if IsIdent(n) && Token(k, n) <= s {
      var o := Open(k);
      var rest := s[|o| + |n|..];
      assert s[..|o|] == o;
      assert s[|o|] == n[0];
      assert s[|o|..] == n + rest;
      assert rest[0] == '}';
      IdentPrefixOfName(n, rest);
    }
  }

  /** Characters of a prefix are characters of the whole. */
  lemma PrefixAt(u: string, s: string, i: int)
    ensures u <= s && 0 <= i < |u| ==> u[i] == s[i]
  {
  }

  /** The layout of a placeholder token, character by character. */
  lemma TokenLayout(k: Kind, n: string)
    requires IsIdent(n)
    ensures |Token(k, n)| == |Open(k)| + |n| + 1
    ensures forall i | 0 <= i < |n| :: Token(k, n)[|Open(k)| + i] == n[i] != '}'
    ensures Token(k, n)[|Open(k)| + |n|] == '}'
    ensures Token(k, n)[2] == '?' <==> k == Optional
  {
    var o := Open(k);
    assert Token(k, n)[|o|..|o| + |n|] == n;
  }

  /** Two placeholder tokens cannot be prefixes of one another unless they are the same token. */
  lemma TokenPrefix(k: Kind, n: string, k': Kind, m: string, r: string)
    requires IsIdent(n) && IsIdent(m)
    requires Token(k', m) <= Token(k, n) + r
    ensures k == k' && n == m
  {
    var t := Token(k, n);
    var s := t + r;
    var u := Token(k', m);
    TokenLayout(k, n);
    TokenLayout(k', m);
    assert t <= s;
    PrefixAt(u, s, 2);
    PrefixAt(t, s, 2);
    assert k == k';
    var L := |Open(k)|;
    if |m| < |n| {
      PrefixAt(u, s, L + |m|);
      PrefixAt(t, s, L + |m|);
      assert false;
    } else if |n| < |m| {
      PrefixAt(u, s, L + |n|);
      PrefixAt(t, s, L + |n|);
      assert false;
    }
    assert u == s[..|u|] == t;
    assert m == u[L..L + |m|];
  }

  /** Replacing never touches a prefix that holds no '$'. */
  lemma {:induction false} ReplaceDollarFreePrefix(t: string, r: string, pat: string, rep: string)
    requires |pat| > 0 && pat[0] == '$' && '$' !in t
    ensures Replace(t + r, pat, rep) == t + Replace(r, pat, rep)
    decreases |t|
  {
    if t != [] {
      var s := t + r;
      if |s| >= |pat| {
        assert s[0] == t[0];
        assert s[..|pat|] != pat by { assert s[..|pat|][0] == t[0]; }
        assert s[1..] == t[1..] + r;
        ReplaceDollarFreePrefix(t[1..], r, pat, rep);
      }
    } else {
      assert t + r == r;
    }
  }

  /** Text that holds no placeholder of kind `k` holds no token of that kind either, so `Replace` leaves it alone. */
  lemma {:induction false} ReplaceInFree(s: string, k: Kind, n: string, rep: string)
    requires IsIdent(n) && Free(s, k)
    ensures Replace(s, Token(k, n), rep) == s
    decreases |s|
  {
    var pat := Token(k, n);
    TokenDollarOnlyAtStart(k, n);
    if |s| >= |pat| {
      assert s[0..] == s;
      assert MatchAt(s[0..], k).None?;
      MatchAtIff(s, k, n);
      assert s[..|pat|] != pat;
      FreeOfTail(s, k);
      ReplaceInFree(s[1..], k, n, rep);
      assert [s[0]] + s[1..] == s;
    }
  }

  /** Every placeholder token is at least four characters long, so shorter text holds none. */
  lemma ShortIsFree(s: string, k: Kind)
    requires |s| < 4
    ensures Free(s, k)
  {
    forall i | 0 <= i <= |s|
      ensures MatchAt(s[i..], k).None?
    {
      var m := MatchAt(s[i..], k);
      if m.Some? {
        TokenDollarOnlyAtStart(k, m.value);
      }
    }
  }

  /** A character other than '$' in front of placeholder-free text adds no placeholder. */
  lemma FreeAfterNonDollar(c: char, s: string, k: Kind)
    requires c != '$' && Free(s, k)
    ensures Free([c] + s, k)
  {
    var t := [c] + s;
    forall i | 0 <= i <= |t|
      ensures MatchAt(t[i..], k).None?
    {
      if i > 0 {
        assert t[i..] == s[i - 1..];
      }
    }
  }

  /** Dropping the first character keeps text free of placeholders. */
  lemma FreeOfTail(s: string, k: Kind)
    requires s != [] && Free(s, k)
    ensures Free(s[1..], k)
  {
    forall i | 0 <= i <= |s| - 1
      ensures MatchAt(s[1..][i..], k).None?
    {
      assert s[1..][i..] == s[i + 1..];
    }
  }

  /** A placeholder token at the front is replaced exactly when it is the pattern itself. */
  lemma ReplaceAtToken(k': Kind, n: string, r: string, k: Kind, name: string, rep: string)
    requires IsIdent(n) && IsIdent(name)
    ensures Replace(Token(k', n) + r, Token(k, name), rep)
         == (if k' == k && n == name then rep else Token(k', n)) + Replace(r, Token(k, name), rep)
  {
    var t := Token(k', n);
    var pat := Token(k, name);
    var s := t + r;
    TokenDollarOnlyAtStart(k', n);
    TokenDollarOnlyAtStart(k, name);
    if k' == k && n == name {
      TakeOfConcat(t, r, |pat|);
      DropOfConcat(t, r, |pat|);
    } else if |s| >= |pat| {
      if s[..|pat|] == pat {
        TokenPrefix(k', n, k, name, r);
      }
      DropOfConcat(t, r, 1);
      ReplaceDollarFreePrefix(t[1..], r, pat, rep);
      ConsOfConcat(t, r, Replace(r, pat, rep));
    }
  }

  /** No occurrence of a placeholder token can straddle a '$': replacing splits there. */
  lemma {:induction false} ReplaceSplitAtDollar(x: string, y: string, k: Kind, name: string, rep: string)
    requires IsIdent(name) && |y| > 0 && y[0] == '$'
    ensures Replace(x + y, Token(k, name), rep) == Replace(x, Token(k, name), rep) + Replace(y, Token(k, name), rep)
    decreases |x|
  {
    var pat := Token(k, name);
    var s := x + y;
    TokenDollarOnlyAtStart(k, name);
    if x == [] {
      assert s == y;
    } else if |s| >= |pat| {
      if s[..|pat|] == pat {
        PrefixAt(pat, s, |x|);
        TakeOfConcat(x, y, |pat|);
        DropOfConcat(x, y, |pat|);
        ReplaceSplitAtDollar(x[|pat|..], y, k, name, rep);
      } else {
        DropOfConcat(x, y, 1);
        ReplaceSplitAtDollar(x[1..], y, k, name, rep);
        if |x| >= |pat| {
          TakeOfConcat(x, y, |pat|);
        }
      }
    }
  }

  /** Scanning never matches at a character other than '$'. */
  lemma {:induction false} NamesDollarFreePrefix(t: string, r: string, k: Kind)
    requires '$' !in t
    ensures Names(t + r, k) == Names(r, k)
    decreases |t|
  {
    if t != [] {
      var s := t + r;
      assert s[0] == t[0];
      assert s[1..] == t[1..] + r;
      NamesDollarFreePrefix(t[1..], r, k);
    } else {
      assert t + r == r;
    }
  }

  /** A token at the front is scanned as one match by its own pattern and skipped by the other one. */
  lemma NamesAtToken(k': Kind, n: string, r: string, k: Kind)
    requires IsIdent(n)
    ensures Names(Token(k', n) + r, k) == (if k' == k then [n] else []) + Names(r, k)
  {
    var t := Token(k', n);
    var s := t + r;
    TokenDollarOnlyAtStart(k', n);
    if k' == k {
      MatchAtIff(s, k, n);
      assert s[|t|..] == r;
    } else {
      match MatchAt(s, k)
      case Some(m) => TokenPrefix(k', n, k, m, r);
      case None =>
        assert s[1..] == t[1..] + r;
        NamesDollarFreePrefix(t[1..], r, k);
    }
  }

  /** A match can never straddle a '$': the match at the front of `x` is unaffected by what follows it. */
  lemma MatchAtBeforeDollar(x: string, y: string, k: Kind)
    requires |x| > 0 && |y| > 0 && y[0] == '$'
    ensures MatchAt(x + y, k) == MatchAt(x, k)
  {
    var s := x + y;
    match MatchAt(s, k) {
      case Some(n) =>
        TokenDollarOnlyAtStart(k, n);
        PrefixAt(Token(k, n), s, |x|);
        assert Token(k, n) <= x;
        MatchAtIff(x, k, n);
      case None =>
    }
    match MatchAt(x, k) {
      case Some(m) =>
        assert Token(k, m) <= s;
        MatchAtIff(s, k, m);
      case None =>
    }
  }

  /** Dropping a prefix of `x` from `x + y`. */
  lemma DropOfConcat(x: string, y: string, i: int)
    requires 0 <= i <= |x|
    ensures (x + y)[i..] == x[i..] + y
  {
  }

  /** Taking a prefix of `x` from `x + y`. */
  lemma TakeOfConcat(x: string, y: string, i: int)
    requires 0 <= i <= |x|
    ensures (x + y)[..i] == x[..i]
  {
  }

  /** The first character of a nonempty `t`, followed by the rest of `t` and then `z`. */
  lemma ConsOfConcat(t: string, r: string, z: string)
    requires t != []
    ensures (t + r)[0] == t[0]
    ensures [(t + r)[0]] + (t[1..] + z) == t + z
  {
    assert t == [t[0]] + t[1..];
  }

  /** Concatenation of strings is associative. */
  lemma StringAssoc(x: string, y: string, z: string)
    ensures x + y + z == x + (y + z)
  {
  }

  /** Concatenation of name lists is associative. */
  lemma SeqAssoc(a: seq<string>, b: seq<string>, c: seq<string>)
    ensures a + (b + c) == (a + b) + c
  {
  }

  /** One step of the scan when a placeholder starts at the front. */
  lemma NamesOnMatch(s: string, k: Kind, n: string)
    requires MatchAt(s, k) == Some(n)
    ensures |Token(k, n)| <= |s| && Names(s, k) == [n] + Names(s[|Token(k, n)|..], k)
  {
  }

  /** One step of the scan when no placeholder starts at the front. */
  lemma NamesOnNoMatch(s: string, k: Kind)
    requires s != [] && MatchAt(s, k).None?
    ensures Names(s, k) == Names(s[1..], k)
  {
  }

  /** Where a placeholder starts at the front of `x`, the scan of `x + y` consumes it and goes on in `y`'s direction. */
  lemma NamesStepOnMatch(x: string, y: string, k: Kind, n: string)
    requires |y| > 0 && y[0] == '$' && MatchAt(x, k) == Some(n) && |Token(k, n)| <= |x|
    ensures Names(x + y, k) == [n] + Names(x[|Token(k, n)|..] + y, k)
  {
    MatchAtBeforeDollar(x, y, k);
    NamesOnMatch(x + y, k, n);
    DropOfConcat(x, y, |Token(k, n)|);
  }

  /** Where no placeholder starts at the front of `x`, the scan of `x + y` skips one character. */
  lemma NamesStepOnNoMatch(x: string, y: string, k: Kind)
    requires |y| > 0 && y[0] == '$' && x != [] && MatchAt(x, k).None?
    ensures Names(x + y, k) == Names(x[1..] + y, k)
  {
    MatchAtBeforeDollar(x, y, k);
    NamesOnNoMatch(x + y, k);
    DropOfConcat(x, y, 1);
  }

  /** No match can straddle a '$': scanning splits there. */
  lemma {:induction false} NamesSplitAtDollar(x: string, y: string, k: Kind)
    requires |y| > 0 && y[0] == '$'
    ensures Names(x + y, k) == Names(x, k) + Names(y, k)
    decreases |x|
  {
    if x == [] {
      assert x + y == y;
    } else {
      match MatchAt(x, k)
      case Some(n) =>
        NamesOnMatch(x, k, n);
        var rest := x[|Token(k, n)|..];
        NamesStepOnMatch(x, y, k, n);
        NamesSplitAtDollar(rest, y, k);
        SeqAssoc([n], Names(rest, k), Names(y, k));
      case None =>
        NamesStepOnNoMatch(x, y, k);
        NamesOnNoMatch(x, k);
        NamesSplitAtDollar(x[1..], y, k);
    }
  }

  /** The scan finds nothing exactly when no placeholder starts anywhere. */
  lemma {:induction false} NamesEmptyIff(s: string, k: Kind)
    ensures Names(s, k) == [] <==> Free(s, k)
    decreases |s|
  {
    if s != [] {
      assert s[0..] == s;
      if MatchAt(s, k).None? {
        NamesEmptyIff(s[1..], k);
        forall i | 1 <= i <= |s| ensures s[i..] == s[1..][i - 1..] { }
        if Free(s[1..], k) {
          forall i | 0 <= i <= |s| ensures MatchAt(s[i..], k).None? {
            if i > 0 {
              assert s[i..] == s[1..][i - 1..];
            }
          }
        }
      }
    }
  }

  /** Text without '$' holds no placeholder of either kind. */
  lemma DollarFreeIsFree(s: string, k: Kind)
    requires '$' !in s
    ensures Names(s, k) == [] && Free(s, k)
  {
    NamesDollarFreePrefix(s, [], k);
    assert s + [] == s;
    NamesEmptyIff(s, k);
  }
}
