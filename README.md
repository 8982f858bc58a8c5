# ConfigData: typed configuration with environment placeholders

This project models `ConfigData` from the device-telemetry web service. The class
reads a string, boolean or integer setting. It looks the key up in the loaded
configuration, falling back to the caller's default written out as text. It then
resolves the environment placeholders in that text and converts the result.

Placeholders come in two forms. `${NAME}` is mandatory and `${?NAME}` is optional.
In both, `NAME` has the form `[a-zA-Z_][a-zA-Z0-9_]*`. Resolution runs two passes
over an ordered process environment, and each pass has three steps:

1. Collect the distinct names the pattern matches.
2. For each environment entry, in enumeration order, whose name was collected,
   replace every `${NAME}` (or `${?NAME}`) with the entry's value.
3. Scan again.

What happens to anything the second scan finds depends on the pass. The mandatory
pass logs an error and throws `InvalidConfigurationException`. The optional pass
logs a warning and leaves the placeholder in the text.

The project has four modules:

- `Placeholders` is the text level. It has a scanner for the two regular
  expressions (non-overlapping matches, left to right) and `String.Replace` as
  replace-all. It also has the LINQ `Distinct` and `Aggregate` steps, and the
  facts about how scanning and replacing meet at a `$`.
- `Resolution` holds the two passes and `ReplaceEnvironmentVariables`. Each pass is
  a method with the source's `foreach` loop. Each method is proved equal to a
  specification function (`MandatoryPass`, `OptionalPass`, `Resolve`), and the
  outcome of each function is proved as lemmas.
- `Templates` is a reference semantics. It writes a value as literal pieces and
  placeholder pieces, and resolving puts the value of the first environment entry
  with the placeholder's name in its place. `ResolveOfRender` proves that the code
  computes exactly this whenever neither the literal text nor the substituted
  values contain `$`. Under the same condition, the code fails or warns exactly
  for the names the environment lacks.
- `ConfigData` holds `GetString`, `GetBool` and `GetInt`, together with the
  text conversions they use: `bool.ToString`, `int.ToString`, `ToLowerInvariant`
  and the integer parse behind `Convert.ToInt32`.

The model follows the code in these places:

- **Substituted values are scanned again.** Resolution is meant to be
  non-recursive, but the code replaces on the current string once per entry. So an entry later in the environment also replaces inside a
  value that an earlier entry inserted. The mandatory pass's second scan also
  reports a `${NAME}` that a value brought in. `LaterEntryRewritesEarlierValue`
  and `EarlierEntryMissesLaterValue` prove both effects.
- **A repeated placeholder sees the values run together.** `${NAME}${NAME}` is
  meant to give `V+V` for any value `V`. The code re-scans the text after
  replacing, so the two copies can form a placeholder between them. With
  `N=}${A`, `${N}` resolves to `}${A`, but `${N}${N}` becomes `}${A}${A` and fails
  naming `A`. `RepeatedPlaceholder` therefore asks that `V+V` hold no placeholder,
  and `RepeatedValueRescanned` proves the failing case.
- **One exception type.** An unresolved mandatory placeholder and a value that
  is not an integer are different kinds of failure, but the code throws
  `InvalidConfigurationException` for both.
- **`GetInt` wraps every failure.** Its `catch` wraps every exception under the
  same "Unable to load configuration value" message naming the key. That includes
  the mandatory-placeholder failure, which `GetString` raises inside the `try`.

The configuration, the environment and the logger are parameters: a map, an ordered
list of (name, value) entries, and the list of log events each call returns.

## Model

| member | source | states |
|---|---|---|
| Placeholders.IdentPrefix | device-telemetry/WebService/Runtime/ConfigData.cs:80 | the greedy `[a-zA-Z0-9_]*` run: a prefix of the text, made of identifier characters, and followed by no further identifier character |
| Placeholders.Open | device-telemetry/WebService/Runtime/ConfigData.cs:80 | the opening `${` of the mandatory pattern (`${?` at line 111 for the optional one). A definition without a contract; `TokenLayout` and `MatchAtIff` state what it means |
| Placeholders.Token | device-telemetry/WebService/Runtime/ConfigData.cs:91 | the text `"${" + key + "}"` (`"${?" + key + "}"` at line 122) that the Replace step searches for. A definition without a contract; `TokenDollarOnlyAtStart`, `TokenLayout` and `TokenPrefix` state its properties |
| Placeholders.MatchAt | device-telemetry/WebService/Runtime/ConfigData.cs:80 | a match anchored at the front captures an identifier, and the text begins with that placeholder's token, so with a `$` |
| Placeholders.MatchAtIff | device-telemetry/WebService/Runtime/ConfigData.cs:80 | the pattern matches at the front with capture `n` exactly when `n` is an identifier and the text begins with `${n}` (or `${?n}`) |
| Placeholders.IdentPrefixOfName | device-telemetry/WebService/Runtime/ConfigData.cs:80 | greedy scanning stops exactly at the end of a name that a non-identifier character follows |
| Placeholders.Names | device-telemetry/WebService/Runtime/ConfigData.cs:83-84 | every name captured by the matches is an identifier |
| Placeholders.NamesEmptyIff | device-telemetry/WebService/Runtime/ConfigData.cs:96-98 | the scan finds no match exactly when no placeholder of that kind starts anywhere in the text (the `keys.Length > 0` test) |
| Placeholders.NamesAtToken | device-telemetry/WebService/Runtime/ConfigData.cs:80 | a placeholder token at the front is scanned as one match by its own pattern and as none by the other pattern |
| Placeholders.NamesDollarFreePrefix | device-telemetry/WebService/Runtime/ConfigData.cs:80 | no match starts in text without `$` |
| Placeholders.MatchAtBeforeDollar | device-telemetry/WebService/Runtime/ConfigData.cs:80 | a match at the front never extends across a later `$` |
| Placeholders.NamesSplitAtDollar | device-telemetry/WebService/Runtime/ConfigData.cs:83 | scanning splits at any `$`: the matches of `x + y` are those of `x` followed by those of `y` |
| Placeholders.DollarFreeIsFree | device-telemetry/WebService/Runtime/ConfigData.cs:80 | text without `$` holds no placeholder of either kind |
| Placeholders.Distinct | device-telemetry/WebService/Runtime/ConfigData.cs:84 | the collected keys are the scanned names, each exactly once |
| Placeholders.Replace | device-telemetry/WebService/Runtime/ConfigData.cs:91 | `String.Replace` by a token, every non-overlapping occurrence from left to right. A definition without a contract; `ReplaceBySelf`, `ReplaceAtToken`, `ReplaceDollarFreePrefix`, `ReplaceSplitAtDollar`, `ReplaceInFree` and `Templates.ReplaceOfRender` state what it does |
| Placeholders.ReplaceBySelf | device-telemetry/WebService/Runtime/ConfigData.cs:91 | replacing a text by itself changes nothing |
| Placeholders.ReplaceInFree | device-telemetry/WebService/Runtime/ConfigData.cs:91 | text that holds no placeholder of a kind holds no token of that kind either, so replacing such a token leaves it unchanged |
| Placeholders.ShortIsFree | device-telemetry/WebService/Runtime/ConfigData.cs:80 | text shorter than four characters holds no placeholder |
| Placeholders.FreeAfterNonDollar | device-telemetry/WebService/Runtime/ConfigData.cs:80 | a character other than `$` in front of placeholder-free text adds no placeholder |
| Placeholders.Aggregate | device-telemetry/WebService/Runtime/ConfigData.cs:100 | the left fold by concatenation only appends to its seed. `AggregateIsSeedConcat` states its full value |
| Placeholders.AggregateIsSeedConcat | device-telemetry/WebService/Runtime/ConfigData.cs:100 | `Aggregate(", ", (current, k) => current + k)` is `", "` followed by the names run together |
| Placeholders.ConcatAppend | device-telemetry/WebService/Runtime/ConfigData.cs:100 | joining the names of two lists is joining each and concatenating |
| Placeholders.TokenDollarOnlyAtStart | device-telemetry/WebService/Runtime/ConfigData.cs:91 | the token `"${" + key + "}"` (or `"${?" + key + "}"`) has its only `$` at the front |
| Placeholders.TokenLayout | device-telemetry/WebService/Runtime/ConfigData.cs:91 | where the opening, the name and the closing `}` of a token sit, and that a `?` in third place marks the optional kind |
| Placeholders.TokenPrefix | device-telemetry/WebService/Runtime/ConfigData.cs:91 | one token cannot begin with another unless they are the same token |
| Placeholders.ReplaceDollarFreePrefix | device-telemetry/WebService/Runtime/ConfigData.cs:91 | `Replace` with a token never changes a prefix without `$` |
| Placeholders.ReplaceAtToken | device-telemetry/WebService/Runtime/ConfigData.cs:91 | a token at the front is replaced exactly when it is the token being replaced |
| Placeholders.ReplaceSplitAtDollar | device-telemetry/WebService/Runtime/ConfigData.cs:91 | replacing splits at any `$`: no replaced occurrence straddles it |
| Resolution.ProcessMandatoryPlaceholders | device-telemetry/WebService/Runtime/ConfigData.cs:77-106 | the loop computes `MandatoryPass`. On success the text holds no `${NAME}` and nothing is logged. On failure some names are left, and the exception message and the single error event list every leftover name after `", "` |
| Resolution.ProcessOptionalPlaceholders | device-telemetry/WebService/Runtime/ConfigData.cs:108-136 | the loop computes `OptionalPass`. It never fails, and it logs exactly when a `${?NAME}` is left, with one warning listing every leftover name |
| Resolution.ReplaceEnvironmentVariables | device-telemetry/WebService/Runtime/ConfigData.cs:70-75 | computes `Resolve`. Empty text comes back unchanged without scanning. Text without placeholders comes back unchanged, with nothing logged |
| Resolution.Step | device-telemetry/WebService/Runtime/ConfigData.cs:89-92 | one iteration of the `foreach`: an entry whose name was collected replaces its token, any other entry changes nothing. A definition without a contract; `SubstitutedTwo` and `SubstitutedKeepsToken` state its effect |
| Resolution.Substituted | device-telemetry/WebService/Runtime/ConfigData.cs:87-93 | the `foreach` over the entries seen so far, first to last. A definition without a contract; the `ProcessMandatoryPlaceholders` and `ProcessOptionalPlaceholders` loop invariants equate it with the loop, and `SubstitutedWithoutKeys`, `SubstitutedKeepsToken` and `Templates.SubstitutedRender` state its value |
| Resolution.Substitute | device-telemetry/WebService/Runtime/ConfigData.cs:83-93 | the search and replace steps of one pass. A definition without a contract; `SubstituteWithoutPlaceholders` and `Templates.SubstituteRender` state its value |
| Resolution.MandatoryPass | device-telemetry/WebService/Runtime/ConfigData.cs:77-106 | the value and log of `ProcessMandatoryPlaceholders`. A definition without a contract; `MandatoryPassOutcome` states when it fails and with what |
| Resolution.OptionalPass | device-telemetry/WebService/Runtime/ConfigData.cs:108-136 | the value and log of `ProcessOptionalPlaceholders`. A definition without a contract; `OptionalPassOutcome` states its value and when it warns |
| Resolution.Resolve | device-telemetry/WebService/Runtime/ConfigData.cs:70-75 | the value and log of `ReplaceEnvironmentVariables`. A definition without a contract; `ResolveWithoutPlaceholders` and `Templates.ResolveOfRender` state its value |
| Resolution.MandatoryPassOutcome | device-telemetry/WebService/Runtime/ConfigData.cs:96-105 | the mandatory pass succeeds exactly when the replaced text holds no `${NAME}`. Success returns that text, and failure carries the message and error event listing the leftover names |
| Resolution.NotFoundMessage | device-telemetry/WebService/Runtime/ConfigData.cs:100-102 | the logged list of missing names is `", "` followed by the names run together, and the exception message is `"Environment variables not found: "` followed by that list |
| Resolution.OptionalPassOutcome | device-telemetry/WebService/Runtime/ConfigData.cs:126-135 | the optional pass returns the replaced text and warns exactly when a `${?NAME}` is left, listing every leftover name |
| Resolution.SubstitutedWithoutKeys | device-telemetry/WebService/Runtime/ConfigData.cs:87-93 | with no collected keys the `foreach` changes nothing |
| Resolution.SubstituteWithoutPlaceholders | device-telemetry/WebService/Runtime/ConfigData.cs:83-93 | a pass over text without placeholders of its kind leaves the text unchanged |
| Resolution.ResolveWithoutPlaceholders | device-telemetry/WebService/Runtime/ConfigData.cs:70-136 | text with no placeholder of either kind is returned unchanged, with nothing thrown and nothing logged |
| Resolution.SubstitutedKeepsToken | device-telemetry/WebService/Runtime/ConfigData.cs:87-93 | a token that no processed entry targets survives the `foreach` intact and in place, and the text on each side is processed as if it were absent |
| Resolution.MandatoryKeepsOptionalToken | device-telemetry/WebService/Runtime/ConfigData.cs:87-93 | the mandatory pass leaves every `${?NAME}` intact and in place for the optional pass |
| Resolution.OptionalKeepsUnsetToken | device-telemetry/WebService/Runtime/ConfigData.cs:118-135 | a `${?NAME}` whose name the environment lacks stays verbatim, the pass does not fail, and the warning lists it in scanning order |
| Resolution.SubstitutedTwo | device-telemetry/WebService/Runtime/ConfigData.cs:87-93 | the `foreach` processes two entries first to last |
| Resolution.LaterEntrySubstitution | device-telemetry/WebService/Runtime/ConfigData.cs:87-93 | with `A=${B}` listed before `B=x`, replacing turns `${A}${B}` into `xx` |
| Resolution.LaterEntryRewritesEarlierValue | device-telemetry/WebService/Runtime/ConfigData.cs:70-105 | so `${A}${B}` resolves to `xx` with nothing logged: a value inserted by one entry is rewritten by a later one |
| Resolution.EarlierEntrySubstitution | device-telemetry/WebService/Runtime/ConfigData.cs:83-93 | with `B=x` listed before `A=${B}`, replacing turns `${A}` into `${B}` |
| Resolution.EarlierEntryMissesLaterValue | device-telemetry/WebService/Runtime/ConfigData.cs:70-103 | so resolving `${A}` fails, and the exception and error event name `B`: the re-scan reports a placeholder that a value brought in |
| Templates.Expand | device-telemetry/WebService/Runtime/ConfigData.cs:87-93 | each placeholder of the pass's kind whose name the environment holds becomes that entry's value, and each other piece is kept |
| Templates.RefNamesMembership | device-telemetry/WebService/Runtime/ConfigData.cs:83-84 | a name is referenced exactly when some placeholder piece carries it |
| Templates.LookupAppend | device-telemetry/WebService/Runtime/ConfigData.cs:87 | the first entry with a name wins, whatever is appended after it |
| Templates.NamesOfRender | device-telemetry/WebService/Runtime/ConfigData.cs:83-84 | scanning well-formed text finds exactly its placeholders of that kind, in order |
| Templates.ReplaceOfRender | device-telemetry/WebService/Runtime/ConfigData.cs:91 | `Replace` of one token on well-formed text is the expansion by that single entry |
| Templates.ExpandAppend | device-telemetry/WebService/Runtime/ConfigData.cs:87-93 | expanding by the entries and then by one more entry is expanding by all of them |
| Templates.ExpandAppendUnused | device-telemetry/WebService/Runtime/ConfigData.cs:89 | an entry whose name is not collected changes nothing |
| Templates.ExpandWellFormed | device-telemetry/WebService/Runtime/ConfigData.cs:91 | expansion with `$`-free values keeps the text well-formed |
| Templates.ExpandNothing | device-telemetry/WebService/Runtime/ConfigData.cs:87-93 | an empty environment expands nothing |
| Templates.MissingAreUnexpanded | device-telemetry/WebService/Runtime/ConfigData.cs:96-97 | the placeholders left after expansion are exactly those whose names the environment lacks |
| Templates.ExpandKeepsOtherKind | device-telemetry/WebService/Runtime/ConfigData.cs:91 | expanding one kind leaves the placeholders of the other kind as they were |
| Templates.MissingOfOtherKind | device-telemetry/WebService/Runtime/ConfigData.cs:96-97 | expanding one kind leaves the missing names of the other kind as they were |
| Templates.SubstitutedRender | device-telemetry/WebService/Runtime/ConfigData.cs:87-93 | the `foreach` over well-formed text computes the expansion |
| Templates.SubstituteRender | device-telemetry/WebService/Runtime/ConfigData.cs:83-97 | search and replace compute the expansion, and the re-scan finds exactly the missing names |
| Templates.MandatoryPassOfRender | device-telemetry/WebService/Runtime/ConfigData.cs:77-106 | the mandatory pass returns the expansion when no mandatory name is missing, and otherwise fails naming exactly the missing ones |
| Templates.OptionalPassOfRender | device-telemetry/WebService/Runtime/ConfigData.cs:108-136 | the optional pass returns the expansion and warns naming exactly the missing optional names |
| Templates.MandatoryExpansionKeepsOptional | device-telemetry/WebService/Runtime/ConfigData.cs:74 | the mandatory pass's output keeps the optional placeholders and their missing names for the optional pass |
| Templates.ResolveOfRender | device-telemetry/WebService/Runtime/ConfigData.cs:70-136 | on well-formed text with `$`-free values, resolution fails exactly when a mandatory name is missing, naming all of them in order. Otherwise it returns the text with every found placeholder replaced and every other optional one verbatim, plus a warning naming those |
| Templates.LookupNoneIsUnset | device-telemetry/WebService/Runtime/ConfigData.cs:87-89 | a name has no first entry exactly when no entry carries it |
| Templates.ResolveOfRenderAllSet | device-telemetry/WebService/Runtime/ConfigData.cs:70-136 | when every name is found, nothing is thrown and nothing is logged |
| Templates.ResolveOfRenderMandatoryMissing | device-telemetry/WebService/Runtime/ConfigData.cs:96-103 | when a mandatory name is missing, the call fails naming every missing one |
| Templates.SubstitutedUnsetKey | device-telemetry/WebService/Runtime/ConfigData.cs:87-93 | with one name collected, entries that do not carry it leave the text unchanged |
| Templates.SubstitutedFirstEntry | device-telemetry/WebService/Runtime/ConfigData.cs:87-93 | with one name collected, the `foreach` gives what the first entry with that name makes of the text, provided that result holds no placeholder for later entries with the same name to rewrite |
| Templates.SinglePlaceholder | device-telemetry/WebService/Runtime/ConfigData.cs:70-136 | with `NAME=V`, `${NAME}` resolves to `V` with nothing logged, for every `V` that holds no placeholder of either kind, stray `$` included |
| Templates.SubstituteTwice | device-telemetry/WebService/Runtime/ConfigData.cs:83-93 | with `NAME=V` and no `${...}` in `V+V`, the search and replace steps of the mandatory pass turn `${NAME}${NAME}` into `V+V` |
| Templates.RepeatedPlaceholder | device-telemetry/WebService/Runtime/ConfigData.cs:70-136 | with `NAME=V`, `${NAME}${NAME}` resolves to `V+V` with nothing logged, for every `V` such that `V+V` holds no placeholder of either kind |
| Templates.BraceOpenAlone | device-telemetry/WebService/Runtime/ConfigData.cs:70-136 | with `N=}${A`, `${N}` resolves to `}${A` with nothing logged |
| Templates.BraceOpenTwice | device-telemetry/WebService/Runtime/ConfigData.cs:96-103 | with `N=}${A`, `${N}${N}` fails naming `A`, with the message and error event the code builds |
| Templates.RepeatedValueFails | device-telemetry/WebService/Runtime/ConfigData.cs:96-103 | with the single entry `NAME=V`, `${NAME}${NAME}` fails naming the one placeholder that the re-scan finds in `V+V` |
| Templates.RepeatedValueRescanned | device-telemetry/WebService/Runtime/ConfigData.cs:96-103 | with `N=}${A`, `${N}` resolves to `}${A`, but `${N}${N}` fails naming `A`, because the two copies of the value run together into `}${A}${A` |
| Templates.UnsetAsPieces | device-telemetry/WebService/Runtime/ConfigData.cs:96-135 | a single unset mandatory reference fails, and a single unset optional one stays with a warning |
| Templates.UnsetPlaceholder | device-telemetry/WebService/Runtime/ConfigData.cs:96-135 | with `NAME` unset, `${NAME}` fails naming it, while `${?NAME}` comes back verbatim with a warning naming it |
| Templates.EndpointAsPieces | device-telemetry/WebService/Runtime/ConfigData.cs:96-103 | a literal, a set mandatory reference, a literal and an unset one fail naming only the unset one |
| Templates.EndpointWithUnsetPort | device-telemetry/WebService/Runtime/ConfigData.cs:96-103 | `A${HOST}B${PORT}` with HOST set and PORT unset fails, with a message naming PORT and not HOST |
| ConfigData.ToLowerInvariant | device-telemetry/WebService/Runtime/ConfigData.cs:47 | keeps the length, lower-cases each ASCII letter, and leaves no upper-case ASCII letter |
| ConfigData.KnownTrue | device-telemetry/WebService/Runtime/ConfigData.cs:49 | the words read as true: `true`, `t`, `yes`, `y`, `1` and `-1`. A constant; `GetBool` and `BoolToStringRoundTrip` use it |
| ConfigData.KnownFalse | device-telemetry/WebService/Runtime/ConfigData.cs:50 | the words read as false: `false`, `f`, `no`, `n` and `0`. A constant; `GetBool` and `BoolToStringRoundTrip` use it |
| ConfigData.BoolToString | device-telemetry/WebService/Runtime/ConfigData.cs:47 | `bool.ToString()`: `True` or `False`. A definition without a contract; `BoolToStringRoundTrip` states its properties |
| ConfigData.BoolToStringRoundTrip | device-telemetry/WebService/Runtime/ConfigData.cs:47-53 | `defaultValue.ToString()` holds no `$`, and lower-cased it is a known true word for `true` and a known false word, not a known true word, for `false` |
| ConfigData.TrimStart | device-telemetry/WebService/Runtime/ConfigData.cs:62 | drops exactly the leading white space: the result is a suffix that starts with no white space, after white space only |
| ConfigData.TrimEnd | device-telemetry/WebService/Runtime/ConfigData.cs:62 | drops exactly the trailing white space: the result is a prefix that ends with no white space, before white space only |
| ConfigData.ParseSigned | device-telemetry/WebService/Runtime/ConfigData.cs:62 | text accepted as a number ends with a digit |
| ConfigData.ParseInt32 | device-telemetry/WebService/Runtime/ConfigData.cs:62 | text with no decimal digit, such as `abc` or empty text, is refused |
| ConfigData.NatToString | device-telemetry/WebService/Runtime/ConfigData.cs:62 | the written form of a number is a non-empty run of digits |
| ConfigData.IntToString | device-telemetry/WebService/Runtime/ConfigData.cs:62 | `int.ToString()` in the invariant culture. A definition without a contract; `ParseSignedOfIntToString`, `ParseIntToString` and `IntToStringHasNoDollar` state its properties |
| ConfigData.DigitsValueOfNatToString | device-telemetry/WebService/Runtime/ConfigData.cs:62 | reading a number's written digits gives the number back |
| ConfigData.TrimStartOfPadded | device-telemetry/WebService/Runtime/ConfigData.cs:62 | leading white space is dropped and nothing else |
| ConfigData.TrimEndOfPadded | device-telemetry/WebService/Runtime/ConfigData.cs:62 | trailing white space is dropped and nothing else |
| ConfigData.ParseSignedOfIntToString | device-telemetry/WebService/Runtime/ConfigData.cs:62 | an integer's `ToString` is read back as itself when it fits in 32 bits, and refused (the overflow) otherwise |
| ConfigData.ParseIntToString | device-telemetry/WebService/Runtime/ConfigData.cs:62 | the same with any white space around it, so `"42"` is read as 42 |
| ConfigData.IntToStringHasNoDollar | device-telemetry/WebService/Runtime/ConfigData.cs:62 | an integer's written form holds no `$`, so no placeholder |
| ConfigData.IntDefaultRoundTrip | device-telemetry/WebService/Runtime/ConfigData.cs:58-62 | `defaultValue.ToString()` holds no `$` and parses back to `defaultValue` |
| ConfigData.GetValue | device-telemetry/WebService/Runtime/ConfigData.cs:41 | `configuration.GetValue(key, defaultValue)`: the stored value, or the default when the key is absent. A definition without a contract; the `GetString` contract states its two cases |
| ConfigData.GetString | device-telemetry/WebService/Runtime/ConfigData.cs:39-43 | returns the resolved stored value, or the resolved default when the key is absent. A `$`-free default for an absent key (`"8080"` for `Port`) comes back as it is, with nothing logged |
| ConfigData.GetBool | device-telemetry/WebService/Runtime/ConfigData.cs:45-56 | propagates a resolution failure and its log. Otherwise it returns true for a known true word in any case (`YES`), false for a known false word, and the default for anything else (`maybe`). An absent key gives the default with nothing logged |
| ConfigData.GetInt | device-telemetry/WebService/Runtime/ConfigData.cs:58-68 | succeeds exactly when resolution succeeds and the text parses as a 32-bit integer, returning that integer; every failure becomes the exception naming the key. An absent key gives the default with nothing logged |

## Left out

- The `ConfigData` constructor and the INI-file `ConfigurationBuilder` with reload on change (lines 26-37) are not modelled. The loaded configuration is a map given to each getter.
- ConfigData.GetValue: the lookup matches the key exactly, while `IConfiguration` compares keys without regard to case. A configuration whose keys differ from the requested key only in case is not modelled.
- `configuration.GetValue` is a map lookup with a default. The binder's conversion rules and null values are not modelled, and every stored value is a string.
- `Environment.GetEnvironmentVariables()` is an ordered list of entries passed in. Reading it, and changes to it during a call, are not modelled.
- `ILogger` is replaced by the list of `Error`/`Warn` events a call returns. The anonymous object carrying `varsNotFound` becomes a field of the event.
- Null strings are not modelled: every value is a string, and `string.IsNullOrEmpty` is the test for the empty string.
- The inner exception that `GetInt` attaches as the cause is not modelled. The exception carries only its message.
- `Regex.Matches` is modelled by a scanner for the two fixed patterns only. The LINQ queries and arrays are modelled as sequences.
- ConfigData.ToLowerInvariant: only ASCII letters are lowered, not the rest of Unicode. At most U+0130 and U+212A can map to ASCII letters (`i` and `k`). No known word contains either letter, so `GetBool`'s decision would not change.
- ConfigData.ParseInt32: culture-specific signs are not modelled; the parse uses `-` and `+`. The trailing NUL characters `Int32.Parse` also accepts are not modelled. `Convert.ToInt32(null)` returning 0 is not modelled, because the value is never null here.
- ConfigData.IntToString: written with `-` and ASCII digits, as in the invariant culture.
- Templates.ResolveOfRender: stated only for text whose literal pieces and substituted values contain no `$`. For other texts, such as `$${A}` or a value like `pa$$w0rd`, what is proved is the following. `MandatoryPassOutcome` and `OptionalPassOutcome` state when each pass fails or warns, and with which names. `SubstitutedKeepsToken` and `MandatoryKeepsOptionalToken` state which tokens survive the replace step in place. `SinglePlaceholder` and `RepeatedPlaceholder` allow values with a stray `$`, as long as the value (for the repeated case, the value written twice) holds no placeholder. No lemma gives the replaced text itself for such inputs in general.
