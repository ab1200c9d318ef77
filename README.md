# A verified model of syndantic's regex lexer

syndantic's `RegexTokenizer` (src/syndantic/tokenizer/regex.py) is a lexer in the
style of JavaCC. Each token definition names a regular expression, a list of lexical
states in which it applies, a priority, a state transition and a category:

- `SKIP` drops the matched text.
- `MORE` keeps it as a prefix of the next token.
- `SPECIAL` builds a token that is attached to the next real token.
- `TOKEN` yields a token.

The constructor sorts the definitions into one table per lexical state, holding one
bucket per priority, highest first. The scanner works from the state `DEFAULT` with an
empty state stack. At every step it tries the current state's buckets in order. In the
first bucket whose winning rule fires, the rule's transition (SWITCH, PUSH, POP, STASH
or SWAP) moves the state and the stack, and the rule's category decides what happens
to the matched text.

The project has seven modules:

- `Wrappers`: `Option`.
- `Tokens`: the token record and the factory type.
- `Transitions`: `StateTransition.apply`, as the pure function `Apply` on a stack whose
  last element is the top.
- `Rules`: the token definition.
- `Compiler`: the table construction of `__init__`. It has loops over maps and
  sequences, proved against declarative reference functions (`Members`, `Priorities`,
  `KnownStates`, `IsCompiled`).
- `Scanner`: the scan loop of `__call__`.
  - The specification functions: `Longest`, `TryBucket`, `SelectFrom`, `Commit`,
    `Advance` and `Run`.
  - Their properties.
  - The class `ScanSession`, whose fields are the loop variables of `__call__` (state,
    stack, backlog, special token and read position). Its methods update those fields.
- `Tokenizer`: the class `RegexTokenizer`.
  - Its constructor names the definitions `__rule<idx>__` and compiles the tables.
  - `Call` runs a `ScanSession`.

The regex engine is a parameter. A `Matcher` gives the length of a rule's anchored
match at the start of the remaining input, or None.

## Divergences from the code as written

The code as written cannot run. The model follows the evident intent instead. Each
point below is also noted where it is modelled.

- Lines 247-253 and 275-278 chain a subscripted type into an assignment. They are
  meant as annotated dicts: `specs` starts as `{"DEFAULT": {}}` (line 253), so DEFAULT
  always has a table, and `_regex_patterns` starts empty (line 278). `any_specs` is
  annotated correctly and starts empty (lines 254-257).
- Line 263 reads `definition.regex_spec`. The field declared at line 85 is `regexp_spec`.
  The pattern text is only an input of the matcher here.
- Lines 269 and 273 *replace* a bucket's pattern by that of the latest rule. The
  `extend` at line 284 shows that buckets are lists of patterns. The model appends:
  - A bucket lists its explicit-state rules in declaration order, then its every-state
    rules.
  - A state listed twice by one rule lists that rule twice.
- Line 270 iterates `definition.states` even when it is None. It is meant only for
  explicit lists.
- Line 287 joins a bucket's patterns by `|`, which a backtracking engine matches
  leftmost-first. The documented rule (lines 180-185) is the longest match within a
  priority. The model takes the longest match, and ties go to the rule listed first.
  See "## Findings".
- Line 305 iterates `groupdict()` itself, whose items are the group names. It unpacks
  each name, a string such as the nine-character `__rule0__`, into two variables, so it
  raises ValueError on the first key and the `else` at line 308 is never reached. Only
  if the loop iterated `.items()` would the `else` raise, because the loop never
  `break`s. The lines are meant to find the rule whose group took part in the match.
- Line 300 never shortens `source`. The model continues after the matched text, using
  an explicit read position.
- Line 326 calls the enum member `defn.transition(...)`. It is meant as `.apply(...)`.
- Other errors each stop the scan with a lexical error (`Scanner.LexError`):
  - a state without a table (KeyError at line 301);
  - no bucket yields a rule (bare `raise` at line 343);
  - POP or SWAP with an empty stack (`list.pop` at lines 72 and 77);
  - a selected zero-length match (`EmptyMatch`). The model rejects every one, including
    an empty match whose transition changes the state, after which the code would go
    on scanning in the new state. Only an empty match that leaves state and stack as
    they are would repeat forever.
- A declining factory (lines 324-325) is taken literally. The `continue` moves on to the
  next lower-priority bucket, and the matched text is not consumed. If no bucket is
  left, the step fails with `NoMatch`. One could instead read a declining factory as
  consuming its text and emitting nothing; the model follows the code.

## Model

| member | source | states |
|---|---|---|
| Transitions.Apply | src/syndantic/tokenizer/regex.py:55-79 | Fails exactly when POP or SWAP find the stack empty. SWITCH goes to `to` (or stays) with the stack untouched. PUSH pushes the old state and goes to `to`. POP makes the old top the state and removes it. STASH stays and pushes `to` (or the state). SWAP makes the old top the state and puts `to` (or the old state) in its place. |
| Transitions.StackHeight | src/syndantic/tokenizer/regex.py:65-79 | A successful transition changes the stack height by +1 (PUSH, STASH), -1 (POP) or 0 (SWITCH, SWAP). |
| Transitions.PushThenPop | src/syndantic/tokenizer/regex.py:68-72 | PUSH followed by POP restores the state before the PUSH and the stack. |
| Transitions.StashThenPop | src/syndantic/tokenizer/regex.py:71-75 | STASH followed by POP enters the stashed state and restores the stack. |
| Transitions.SwapTwice | src/syndantic/tokenizer/regex.py:76-79 | SWAP without a target, done twice, restores state and stack. |
| Rules.RunsFactory | src/syndantic/tokenizer/regex.py:317 | TOKEN and SPECIAL rules always run their factory. SKIP and MORE rules run it iff `force_run_factory` is set, as documented at lines 196-199. |
| Compiler.ExplicitIff | src/syndantic/tokenizer/regex.py:270-273 | A rule is in the explicit list of state `s` at priority `p` iff it lists `s` and has priority `p`. |
| Compiler.WildcardIff | src/syndantic/tokenizer/regex.py:268-269 | A rule is in the every-state list of priority `p` iff its `states` is None and its priority is `p`. |
| Compiler.ExplicitPrioritiesIff | src/syndantic/tokenizer/regex.py:270-273 | A state has an explicit bucket at `p` iff some rule listing it has priority `p`. |
| Compiler.WildcardPrioritiesIff | src/syndantic/tokenizer/regex.py:268-269 | There is an every-state bucket at `p` iff some every-state rule has priority `p`. |
| Compiler.NamedIff | src/syndantic/tokenizer/regex.py:270-272 | The states entered into `specs` are exactly those named by some rule's explicit list. |
| Compiler.UnnamedHasNoExplicit | src/syndantic/tokenizer/regex.py:270-273 | A state no rule names has no explicit buckets. |
| Compiler.MembersIff | src/syndantic/tokenizer/regex.py:279-285 | A rule is in bucket `p` of state `s` iff it applies in `s` and has priority `p`. |
| Compiler.PrioritiesIff | src/syndantic/tokenizer/regex.py:279-289 | State `s` has a bucket at `p` iff some rule applying in `s` has priority `p`. |
| Compiler.KnownStatesIff | src/syndantic/tokenizer/regex.py:247-272 | A state gets a table iff it is DEFAULT or some rule lists it. |
| Compiler.CompiledIdsInRange | src/syndantic/tokenizer/regex.py:259-292 | Every id in a compiled table names a definition. |
| Compiler.CompiledMembership | src/syndantic/tokenizer/regex.py:279-292 | In a compiled table a rule is in some bucket of a state iff it applies there, and only in the bucket of its own priority. |
| Compiler.CompiledBucketsNonEmpty | src/syndantic/tokenizer/regex.py:286-292 | No compiled bucket is empty. |
| Compiler.WildcardInEveryState | src/syndantic/tokenizer/regex.py:268-285 | A rule with `states=None` is in a bucket of every state's table. |
| Compiler.EmptyListInNoState | src/syndantic/tokenizer/regex.py:270-273 | A rule with `states=[]` is in no bucket of any state. |
| Compiler.ExplicitOnlyInListed | src/syndantic/tokenizer/regex.py:270-273 | Every state a rule lists gets a table, and the rule occurs in a state's buckets iff the state is on its list. |
| Compiler.Register | src/syndantic/tokenizer/regex.py:271-273 | Entering one state of a rule creates the state's map if missing and appends the rule id to the list at its priority. Every other list is unchanged. |
| Compiler.ListingStep | src/syndantic/tokenizer/regex.py:270-273 | Registering the next entry of a rule's state list keeps `specs` equal to the reference lists of the entries done so far. |
| Compiler.AddListed | src/syndantic/tokenizer/regex.py:270-273 | The loop over a rule's explicit list turns `specs` for the first `idx` rules into `specs` for the first `idx + 1`. |
| Compiler.WildcardRegistered | src/syndantic/tokenizer/regex.py:268-269 | Appending an every-state rule to `any_specs` at its priority gives `any_specs` for one more rule. |
| Compiler.ListedLeavesWildcards | src/syndantic/tokenizer/regex.py:268-273 | A rule with an explicit list leaves `any_specs` as it was. |
| Compiler.WildcardKeepsLists | src/syndantic/tokenizer/regex.py:268-273 | A rule with `states=None` leaves `specs` as it was. |
| Compiler.RegistriesAfter | src/syndantic/tokenizer/regex.py:247-273 | The invariants of `specs` and `any_specs` after `n` rules hold iff both equal their reference maps. |
| Compiler.NothingRegistered | src/syndantic/tokenizer/regex.py:247-257 | Before any rule, `specs` maps only DEFAULT, to an empty map, and `any_specs` is empty. |
| Compiler.RegisterDefinition | src/syndantic/tokenizer/regex.py:259-273 | One iteration of the definitions loop takes both maps from their values after `idx` rules to their values after `idx + 1`. |
| Compiler.CollectSpecs | src/syndantic/tokenizer/regex.py:247-273 | After the loop, `specs` lists per state and priority the explicit-state rules in declaration order, and `any_specs` lists per priority the every-state rules. |
| Compiler.MergeWildcards | src/syndantic/tokenizer/regex.py:280-284 | The merged map has the priorities of both maps, each list being the state's explicit list followed by the every-state list. |
| Compiler.SortDescending | src/syndantic/tokenizer/regex.py:290-291 | The priorities, each exactly once, in strictly descending order. |
| Compiler.SpecsLookup | src/syndantic/tokenizer/regex.py:279-285 | After registration, merging a state's lists gives exactly its reference bucket contents and priorities. |
| Compiler.BucketsOf | src/syndantic/tokenizer/regex.py:290-292 | Given an order listing exactly the merged priorities, highest first, the buckets descend strictly in priority, cover exactly the merged priorities, and each holds the merged list of its priority. |
| Compiler.BucketsCompiled | src/syndantic/tokenizer/regex.py:279-292 | The buckets of the merged lists in descending priority order are the compiled bucket list of the state. |
| Compiler.CompileState | src/syndantic/tokenizer/regex.py:279-292 | A state's bucket list is descending by priority, has one bucket per priority present there, and each bucket holds exactly the rules of that priority applying in the state. |
| Compiler.Compile | src/syndantic/tokenizer/regex.py:237-292 | The table has exactly DEFAULT and the named states, each compiled as above. |
| Scanner.Longest | src/syndantic/tokenizer/regex.py:180-185 | None iff no rule of the bucket matches. Otherwise a matching rule whose length is at least every other match and strictly greater than every earlier one. |
| Scanner.FirstMatch | src/syndantic/tokenizer/regex.py:287 | The alternation of the bucket's patterns as written: the first alternative that matches, with no earlier alternative matching; None iff none matches. |
| Scanner.LeftmostFirstIsNotLongest | src/syndantic/tokenizer/regex.py:287 | For rules `a` and `ab` on input `ab`, the joined pattern matches `a` while the longest match is `ab`. |
| Scanner.TryBucket | src/syndantic/tokenizer/regex.py:302-325 | A result fires bucket `k` with one of the bucket's rules, one that matches the input with the result's length, a length within the input. |
| Scanner.TryBucketIff | src/syndantic/tokenizer/regex.py:301-325 | A bucket yields nothing when nothing matches. What it yields is one of its rules with its longest match, carrying a token iff the rule runs its factory, namely the factory's result on backlog + text, kind and special. Something matching yet nothing yielded means the longest match's factory declined, and a declining factory means nothing is yielded. |
| Scanner.SelectFrom | src/syndantic/tokenizer/regex.py:301-343 | The first bucket from `k` on that yields a rule, all earlier ones yielding nothing; None iff every bucket yields nothing. |
| Scanner.SelectedApplies | src/syndantic/tokenizer/regex.py:301-315 | The fired rule applies in the state, sits in the bucket of its priority, and matches with the fired length. |
| Scanner.LongestWithinPriority | src/syndantic/tokenizer/regex.py:180-185 | No rule of the fired rule's priority in the state has a longer match. |
| Scanner.HigherPriorityDeclined | src/syndantic/tokenizer/regex.py:301-325 | A matching rule of higher priority than the fired one lies in a bucket tried earlier whose winner's factory declined. |
| Scanner.BuildingBucketYields | src/syndantic/tokenizer/regex.py:301-325 | With factories that always build, a bucket in which some rule matches yields a rule. |
| Scanner.HighestPriorityWins | src/syndantic/tokenizer/regex.py:180-185 | With factories that always build, no matching rule of the state has a higher priority than the fired one. |
| Scanner.NothingSelected | src/syndantic/tokenizer/regex.py:301-343 | If no applicable rule matches, no rule fires. If no rule fires, every matching applicable rule lies in a bucket whose winner's factory declined. |
| Scanner.Select | src/syndantic/tokenizer/regex.py:301-325 | The rule a step fires is listed in one of the state's buckets and matches the text at the read position with the fired length, which fits in the remaining text. |
| Scanner.Commit | src/syndantic/tokenizer/regex.py:326-340 | Fails iff the transition does. TOKEN yields the factory's token and clears backlog and special. MORE appends the text to the backlog. SKIP clears the backlog. SPECIAL keeps the token as the pending special one. Only TOKEN yields. The read position advances past the text. |
| Scanner.Advance | src/syndantic/tokenizer/regex.py:300-343 | UnknownState iff the state has no table. NoMatch iff no bucket yields a rule. EmptyMatch iff the selected match is empty. EmptyStack iff the selected non-empty match belongs to a POP or SWAP rule and the stack is empty. A step fires the selected rule, advances past its non-empty match and commits it. |
| Scanner.Run | src/syndantic/tokenizer/regex.py:300-343 | A scan yields at most one token per remaining character, and nothing at the end of the input. |
| Scanner.StepFactory | src/syndantic/tokenizer/regex.py:316-325 | The fired rule carries a token iff it runs its factory. That token is the factory's result on backlog + text, the rule's kind and the pending special token. |
| Scanner.OnlyTokenYields | src/syndantic/tokenizer/regex.py:331-340 | A step yields a token iff the fired rule is a TOKEN rule. |
| Scanner.MoreFeedsToken | src/syndantic/tokenizer/regex.py:335-336 | After MORE, a TOKEN's image is the earlier backlog, the MORE text and its own text, with the special token pending before both. |
| Scanner.SpecialFeedsToken | src/syndantic/tokenizer/regex.py:339-340 | After SPECIAL, the next factory run receives the SPECIAL rule's token as `special`. |
| Scanner.NoMatchError | src/syndantic/tokenizer/regex.py:342-343 | In a compiled table, a known state where no applicable rule matches fails with NoMatch. |
| Scanner.MatchIsSelected | src/syndantic/tokenizer/regex.py:301-325 | With factories that always build, a matching applicable rule means some rule fires. |
| Scanner.NoSelectionNoMatch | src/syndantic/tokenizer/regex.py:342-343 | With factories that always build, if no rule fires then no applicable rule matches. |
| Scanner.NoMatchMeansNoRule | src/syndantic/tokenizer/regex.py:342-343 | With factories that always build, a NoMatch failure means no applicable rule matches. |
| Scanner.UnknownStateError | src/syndantic/tokenizer/regex.py:301 | In a compiled table, a step fails with UnknownState iff the state is neither DEFAULT nor listed by any rule. |
| Scanner.RunStep | src/syndantic/tokenizer/regex.py:300-343 | A scan is one step followed by the scan from where it leaves off, or the step's error. |
| Scanner.MatchedStep | src/syndantic/tokenizer/regex.py:300-341 | The texts matched by a scan are the first step's text followed by the texts of the rest. |
| Scanner.MatchesTileSource | src/syndantic/tokenizer/regex.py:300-341 | A scan that ends without error consumed the whole input: its matched texts concatenate to the source. |
| Scanner.MatchesNonEmpty | src/syndantic/tokenizer/regex.py:300-341 | Every matched text is non-empty. |
| Scanner.TokensPerMatch | src/syndantic/tokenizer/regex.py:331-334 | A scan yields at most as many tokens as it has matches. |
| Scanner.ScanSession.constructor | src/syndantic/tokenizer/regex.py:296-299 | The session starts in DEFAULT with an empty stack, empty backlog, no special token and read position 0. |
| Scanner.ScanSession.TryAt | src/syndantic/tokenizer/regex.py:302-325 | Trying one bucket imperatively gives what `TryBucket` specifies. |
| Scanner.ScanSession.Choose | src/syndantic/tokenizer/regex.py:301-325 | The loop over the state's buckets returns exactly the rule `Select` specifies. |
| Scanner.ScanSession.Settle | src/syndantic/tokenizer/regex.py:326-340 | The fields after the transition and the category's effects are those `Commit` specifies. Nothing changes if the transition fails. |
| Scanner.ScanSession.Step | src/syndantic/tokenizer/regex.py:300-343 | One loop iteration moves the fields to `Advance`'s next configuration and returns its token. On a lexical error it returns the error and changes nothing. |
| Scanner.ScanSession.Scan | src/syndantic/tokenizer/regex.py:300-343 | The tokens and error returned are `Run` from the session's starting configuration. |
| Tokenizer.RuleName | src/syndantic/tokenizer/regex.py:260 | A rule's group name starts with `__rule` and ends with `__`. |
| Tokenizer.DecimalInjective | src/syndantic/tokenizer/regex.py:260 | Distinct indices have distinct decimal numerals. |
| Tokenizer.RuleNameInjective | src/syndantic/tokenizer/regex.py:260-261 | Distinct definitions get distinct group names. |
| Tokenizer.NameRules | src/syndantic/tokenizer/regex.py:245-261 | `_defs` maps each definition's group name to that definition and holds nothing else. |
| Tokenizer.RegexTokenizer.constructor | src/syndantic/tokenizer/regex.py:237-292 | After construction, the tables are compiled from the definitions, with DEFAULT among them, and `_defs` names every definition. |
| Tokenizer.RegexTokenizer.Call | src/syndantic/tokenizer/regex.py:294-343 | Calling the tokenizer yields what `Run` gives from DEFAULT with an empty stack, backlog and special token. |

## Findings

| source | as written | input that shows it | evidently intended | confidence | as-written member | corrected member |
|---|---|---|---|---|---|---|
| src/syndantic/tokenizer/regex.py:287 | A bucket's patterns are joined into one alternation, and the regex engine takes the first alternative that matches. | Two rules of equal priority with literal patterns `a` then `ab`, and the input `ab`: the joined pattern matches only `a`. | The longest match among rules of one priority (lines 180-185): `ab`. | high; not executed | Scanner.FirstMatch, Scanner.LeftmostFirstIsNotLongest | Scanner.Longest |

## Left out

- The regex engine is a parameter (`Scanner.Matcher`). That covers pattern syntax, `regex_validator`, the `(?i)` prefix for `ignore_case` and the named groups. The model assumes that an anchored match never runs past the end of the input (`MatcherOk`).
- Resolving the factory from an import string (`ImportString`) is outside the regex engine model. A rule holds the factory function itself.
- The pydantic validation of definitions, and the discriminated union that picks a subclass from `is_a` (lines 228-231), belong to pydantic. `Rules.Category` stands for `is_a`.
- Positions for the factory (the TODO at line 322) are missing from the source too, so no positions are modelled.
- The scan is lazy in the source: a generator that raises at the first error. The model returns the tokens yielded before the error together with that error.
- `Transitions.Apply`: the source mutates the caller's list. The model returns the new stack as a value, so aliasing of that list is not captured.
- A factory result counts as declining only when it is None. A token object that Python would treat as false is not modelled.
- Line 315 looks up the fired rule by group name in `_defs`. The scanner uses the rule id directly, and `Tokenizer.NameRules` proves that the name maps to that rule.
- Scanner.HighestPriorityWins: stated only for factories that always build (`AlwaysBuilds`). A factory that declines lets a lower-priority bucket fire (lines 324-325); `Scanner.HigherPriorityDeclined` covers that case.
- Scanner.NoMatchMeansNoRule: stated only under `AlwaysBuilds`, because declining factories can also cause NoMatch (see `Scanner.NothingSelected`).
- Scanner.MatchIsSelected: stated only under `AlwaysBuilds`, for the same reason.
- Scanner.NoSelectionNoMatch: stated only under `AlwaysBuilds`, for the same reason.
- Backlog and pending special token left over at the end of the input are dropped, as in the source; no lemma is stated about them.
